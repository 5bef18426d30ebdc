/** Fields that come more than once: of a single value the last one counts, and what comes again of an
    embedded message is added to what came before. */
module PbMerge {
  import opened Common
  import opened PbWire
  import opened PbSchema
  import opened PbCodec
  import opened PbRoundTrip
  import opened PbFields
  import opened PbRequired
  import R = PbRepeated

  // ---- A single value ----

  /** Single values do not depend on the layout. */
  const NONE: Layout := (_, _) => false

  predicate Single(f: Field) {
    WfField(f) && !f.h.Repeated? && !f.l.Submessage?
  }

  predicate WfOne(f: Field, v: Value) {
    WfValue(f.l, v) && EncValue(NONE, f.l, v).Some? && |EncValue(NONE, f.l, v).value| < 0x1_0000_0000
  }

  function OneBytes(f: Field, v: Value): seq<byte>
    requires WfOne(f, v)
  {
    EncTagFor(f) + EncValue(NONE, f.l, v).value
  }

  function TimesBytes(f: Field, vs: seq<Value>): seq<byte>
    requires forall k | 0 <= k < |vs| :: WfOne(f, vs[k])
  {
    if vs == [] then [] else OneBytes(f, vs[0]) + TimesBytes(f, vs[1..])
  }

  function After(d: Desc, f: Field, st: Loop, v: Value): Loop
    requires Has(d, f.tag)
  {
    MarkSeen(d, f, st).(m := if f.h.Oneof? then ClearOneof(d, f, st.m)[f.tag := v] else st.m[f.tag := v])
  }

  lemma OneRead(mem: Memory, d: Desc, f: Field, v: Value, rest: seq<byte>, st: Loop)
    requires Has(d, f.tag) && FieldOf(d, f.tag) == f && Single(f) && WfOne(f, v)
    ensures DecLoop(mem, d, OneBytes(f, v) + rest, st) == DecLoop(mem, d, rest, After(d, f, st, v))
  {
    hide EncValue, EncTag, DecLoop, DecValue, WfValue, ClearOneof;
    var b := EncValue(NONE, f.l, v).value;
    assert OneBytes(f, v) + rest == EncTag(f.tag, WireType(f.l)) + (b + rest);
    KnownTag(mem, d, f.tag, WireType(f.l), b + rest, st);
    assert EnterFixed(d, f, st) == Some(st);
    SingleRead(mem, f, v, rest, ResetValue(mem, f));
    if f.tag in st.m {
      SingleRead(mem, f, v, rest, st.m[f.tag]);
    }
  }

  lemma SingleRead(mem: Memory, f: Field, v: Value, rest: seq<byte>, cur: Value)
    requires Single(f) && WfOne(f, v)
    ensures DecValue(Within(mem, f), f.l, EncValue(NONE, f.l, v).value + rest, cur) == Some(Got(v, rest))
  {
    hide EncScalar, DecScalar, DecString, CString;
    match f.l
    case Bytes(_) => StringDecodes(v.b, rest);
    case Str(_) =>
      StringDecodes(v.b, rest);
      CStringOfNone(v.b);
    case FixedBytes(_) =>
      StringDecodes(v.b, rest);
      assert v.b == [] ==> seq(|v.b|, _ => 0) == v.b;
    case _ => ScalarDecodes(f.l, v, rest);
  }

  lemma {:induction false} TimesRead(mem: Memory, d: Desc, f: Field, vs: seq<Value>, tail: seq<byte>, st: Loop)
    requires Has(d, f.tag) && FieldOf(d, f.tag) == f && Single(f) && vs != [] && EndsHere(tail)
    requires forall k | 0 <= k < |vs| :: WfOne(f, vs[k])
    ensures DecLoop(mem, d, TimesBytes(f, vs) + tail, st) == Some(Got(After(d, f, st, vs[|vs| - 1]), Behind(tail)))
    decreases |vs|
  {
    hide DecLoop, WfOne, OneBytes, After;
    OneRead(mem, d, f, vs[0], TimesBytes(f, vs[1..]) + tail, st);
    assert TimesBytes(f, vs) + tail == OneBytes(f, vs[0]) + (TimesBytes(f, vs[1..]) + tail);
    if |vs| == 1 {
      assert TimesBytes(f, vs[1..]) + tail == tail;
      R.MessageEnds(mem, d, After(d, f, st, vs[0]), tail);
    } else {
      TimesRead(mem, d, f, vs[1..], tail, After(d, f, st, vs[0]));
      Overwritten(d, f, st, vs[0], vs[|vs| - 1]);
    }
  }

  lemma Overwritten(d: Desc, f: Field, st: Loop, v: Value, w: Value)
    requires Has(d, f.tag)
    ensures After(d, f, After(d, f, st, v), w) == After(d, f, st, w)
  {
    if f.h.Oneof? {
      assert ClearOneof(d, f, ClearOneof(d, f, st.m)[f.tag := v])[f.tag := w] == ClearOneof(d, f, st.m)[f.tag := w];
    } else {
      assert st.m[f.tag := v][f.tag := w] == st.m[f.tag := w];
    }
  }

  /** A message of one field that comes any number of times: its last value, with the other fields as they
      start out; an error if another required field is missing. */
  lemma LastValueCounts(mem: Memory, d: Desc, i: nat, vs: seq<Value>, tail: seq<byte>)
    requires WfDesc(d) && i < |d.fields| && Single(d.fields[i]) && vs != [] && EndsHere(tail)
    requires forall k | 0 <= k < |vs| :: WfOne(d.fields[i], vs[k])
    ensures var f := d.fields[i];
      Decode(mem, d, TimesBytes(f, vs) + tail) ==
        if forall j | 0 <= j < |d.fields| && d.fields[j].h == Required && RequiredBefore(d, j) < 64 :: j == i
        then Some(Got(Defaults(mem, d)[f.tag := vs[|vs| - 1]], Behind(tail)))
        else None
  {
    hide DecLoop, WfOne, Defaults, Finished, ClearOneof;
    var f := d.fields[i];
    var start := Loop(Defaults(mem, d), None, {});
    FieldOfIndex(d, i);
    TimesRead(mem, d, f, vs, tail, start);
    var end := After(d, f, start, vs[|vs| - 1]);
    NoneToClear(mem, d, f);
    OneSeen(d, i, end);
  }

  lemma NoneToClear(mem: Memory, d: Desc, f: Field)
    requires Has(d, f.tag) && FieldOf(d, f.tag) == f
    ensures f.h.Oneof? ==> ClearOneof(d, f, Defaults(mem, d)) == Defaults(mem, d)
  {
    hide InitialValue;
  }

  lemma OneSeen(d: Desc, i: nat, st: Loop)
    requires Distinct(d) && i < |d.fields| && st.fixed == None
    requires st.seen == if d.fields[i].h == Required && RequiredBefore(d, i) < 64 then {RequiredBefore(d, i)} else {}
    ensures Finished(d, st) <==> forall j | 0 <= j < |d.fields| && d.fields[j].h == Required && RequiredBefore(d, j) < 64 :: j == i
  {
    hide RequiredBefore;
    if Finished(d, st) {
      forall j | 0 <= j < |d.fields| && d.fields[j].h == Required && RequiredBefore(d, j) < 64
        ensures j == i
      {
        RequiredIndexBelow(d, j, |d.fields|);
        assert RequiredBefore(d, j) in st.seen;
        SameRequired(d, i, j);
      }
    } else {
      var k :| 0 <= k < RequiredBefore(d, |d.fields|) && k < 64 && k !in st.seen;
      var j := RequiredAt(d, |d.fields|, k);
    }
  }

  // ---- What does not come again ----

  /** A field that does not come by, and of whose union no member does, keeps its value. */
  lemma {:induction false} UnreadKept(mem: Memory, d: Desc, s: seq<byte>, st: Loop, t: nat)
    requires DecLoop(mem, d, s, st).Some? && d.fields != [] && t in st.m && Has(d, t)
    requires t !in TagsInOrder(mem, d, s, st)
    requires FieldOf(d, t).h.Oneof? ==> forall u <- TagsInOrder(mem, d, s, st) | Has(d, u) :: FieldOf(d, u).h != FieldOf(d, t).h
    ensures var m := DecLoop(mem, d, s, st).value.value.m; t in m && m[t] == st.m[t]
    decreases |s|
  {
    hide DecTag, DecField, SkipField, FieldOf, Has, EnterFixed, MarkSeen;
    var tag := DecTag(s);
    if s != [] && tag.Tag? {
      if Has(d, tag.tag) {
        var g := FieldOf(d, tag.tag);
        var marked := MarkSeen(d, g, EnterFixed(d, g, st).value);
        EnteringLeaves(d, g, st, t);
        var next := DecField(mem, d, g, tag.wireType, tag.rest, marked).value;
        assert TagsInOrder(mem, d, s, st) == [tag.tag] + TagsInOrder(mem, d, next.rest, next.value);
        assert tag.tag in TagsInOrder(mem, d, s, st);
        OthersLeft(mem, d, g, tag.wireType, tag.rest, marked, t);
        UnreadKept(mem, d, next.rest, next.value, t);
      } else {
        UnreadKept(mem, d, SkipField(tag.wireType, tag.rest).value, st, t);
      }
    }
  }

  lemma EnteringLeaves(d: Desc, g: Field, st: Loop, t: nat)
    requires Has(d, g.tag) && EnterFixed(d, g, st).Some? && t in st.m && t != g.tag
    ensures var m := MarkSeen(d, g, EnterFixed(d, g, st).value).m; t in m && m[t] == st.m[t]
  {
  }

  lemma OthersLeft(mem: Memory, d: Desc, g: Field, wireType: nat, s: seq<byte>, st: Loop, t: nat)
    requires DecField(mem, d, g, wireType, s, st).Some? && t in st.m && t != g.tag && Has(d, t)
    requires FieldOf(d, t).h.Oneof? ==> g.h != FieldOf(d, t).h
    ensures var m := DecField(mem, d, g, wireType, s, st).value.value.m; t in m && m[t] == st.m[t]
  {
    hide DecValue, DecString, DecPacked, ResetValue, FieldOf;
  }

  /** An embedded message that comes twice: whatever of it came the first time and not the second is there
      in the end, as it was. */
  lemma EmbeddedAdds(mem: Memory, d: Desc, i: nat, first: seq<byte>, second: seq<byte>, t: nat)
    requires WfDesc(d) && i < |d.fields| && d.fields[i].l.Submessage? && (d.fields[i].h == Required || d.fields[i].h.Optional?)
    requires |first| < 0x1_0000_0000 && |second| < 0x1_0000_0000
    requires var f := d.fields[i];
      Decode(mem, d, EncTagFor(f) + WithLength(first) + (EncTagFor(f) + WithLength(second))).Some?
    requires var e := d.fields[i].l.desc;
      && Decode(mem, e, first).Some? && e.fields != [] && Has(e, t) && t in Decode(mem, e, first).value.value
      && var tags := TagsInOrder(mem, e, second, Loop(Decode(mem, e, first).value.value, None, {}));
      && t !in tags && (FieldOf(e, t).h.Oneof? ==> forall u <- tags | Has(e, u) :: FieldOf(e, u).h != FieldOf(e, t).h)
    ensures var f := d.fields[i];
      var m := Decode(mem, d, EncTagFor(f) + WithLength(first) + (EncTagFor(f) + WithLength(second))).value.value;
      && f.tag in m && m[f.tag].Msg? && t in m[f.tag].m
      && m[f.tag].m[t] == Decode(mem, f.l.desc, first).value.value[t]
  {
    hide EncTag, WithLength, DecLoop, Defaults, TagsInOrder, Has, FieldOf;
    var f := d.fields[i];
    var e := f.l.desc;
    FieldOfIndex(d, i);
    var start := Loop(Defaults(mem, d), None, {});
    StartsEmbedded(mem, d, f);
    EmbeddedRead(mem, d, f, first, EncTagFor(f) + WithLength(second), start);
    var was := Decode(mem, e, first).value.value;
    var mid := MarkSeen(d, f, start).(m := start.m[f.tag := Msg(was)]);
    assert EncTagFor(f) + WithLength(second) == EncTagFor(f) + WithLength(second) + [];
    EmbeddedRead(mem, d, f, second, [], mid);
    if DecodeNoInit(mem, e, second, was).Some? {
      var now := DecodeNoInit(mem, e, second, was).value.value;
      R.MessageEnds(mem, d, MarkSeen(d, f, mid).(m := mid.m[f.tag := Msg(now)]), []);
      UnreadKept(mem, e, second, Loop(was, None, {}), t);
    }
  }

  /** An embedded message is read into the one there is, or into a new one. */
  lemma EmbeddedRead(mem: Memory, d: Desc, f: Field, b: seq<byte>, rest: seq<byte>, st: Loop)
    requires Has(d, f.tag) && FieldOf(d, f.tag) == f && WfField(f) && f.l.Submessage? && (f.h == Required || f.h.Optional?)
    requires |b| < 0x1_0000_0000 && (f.tag in st.m ==> st.m[f.tag].Msg?)
    ensures var cur := if f.tag in st.m then st.m[f.tag].m else Defaults(mem, f.l.desc);
      var r := DecodeNoInit(mem, f.l.desc, b, cur);
      DecLoop(mem, d, EncTagFor(f) + WithLength(b) + rest, st) ==
        if r.None? then None else DecLoop(mem, d, rest, MarkSeen(d, f, st).(m := st.m[f.tag := Msg(r.value.value)]))
  {
    hide EncTag, WithLength, DecLoop, DecodeNoInit, Defaults, DecString;
    StringDecodes(b, rest);
    InitialEmbedded(mem, f);
    assert EncTagFor(f) + WithLength(b) + rest == EncTag(f.tag, WireType(f.l)) + (WithLength(b) + rest);
    KnownTag(mem, d, f.tag, WireType(f.l), WithLength(b) + rest, st);
    assert EnterFixed(d, f, st) == Some(st);
  }

  lemma StartsEmbedded(mem: Memory, d: Desc, f: Field)
    requires Has(d, f.tag) && FieldOf(d, f.tag) == f && f.l.Submessage? && (f.h == Required || f.h.Optional?)
    ensures f.tag in Defaults(mem, d) ==> Defaults(mem, d)[f.tag] == Msg(Defaults(mem, f.l.desc))
  {
    hide InitialValue;
    if f.tag in Defaults(mem, d) {
      assert Defaults(mem, d)[f.tag] == InitialValue(mem, f);
      InitialEmbedded(mem, f);
    }
  }

  lemma InitialEmbedded(mem: Memory, f: Field)
    requires f.l.Submessage? && (f.h == Required || f.h.Optional?)
    ensures InitialValue(mem, f) == ResetValue(mem, f) == Msg(Defaults(mem, f.l.desc)) && Within(mem, f) == mem
  {
    hide Defaults;
  }
}
