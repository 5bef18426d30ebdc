/** The round trip. What a reader gets is the projection of the message onto its own schema, unless
    the writer left out a proto3 submessage whose fixed-count array it mistook for empty. */
module PbEvolution {
  import opened Common
  import opened PbWire
  import opened PbSchema
  import opened PbCodec
  import opened PbRoundTrip

  // ---- Every well-formed message can be encoded ----

  lemma {:induction false} WellFormedEncodes(lay: Layout, d: Desc, m: Message)
    requires WfDesc(d) && WfMessage(d, m)
    ensures EncMessage(lay, d, m).Some?
    decreases d, 3
  {
    FieldsEncode(lay, d, m, 0);
  }

  lemma {:induction false} FieldsEncode(lay: Layout, d: Desc, m: Message, i: nat)
    requires WfDesc(d) && WfMessage(d, m) && i <= |d.fields|
    ensures EncFields(lay, d, m, i).Some?
    decreases d, 2, |d.fields| - i
  {
    if i < |d.fields| {
      FieldWellFormed(d, m, i);
      FieldEncodes(lay, d.fields[i], m);
      FieldsEncode(lay, d, m, i + 1);
    }
  }

  lemma {:induction false} FieldEncodes(lay: Layout, f: Field, m: Message)
    requires WfField(f) && WfFieldValue(f, m)
    ensures EncField(lay, f, m).Some?
    decreases f, 2
  {
    hide EncTagFor, EncTag, WithLength, ReadsAsDefault;
    if f.h.Repeated? {
      if Packable(f.l) {
        PackedEncodes(f.l, m[f.tag].vs);
      } else {
        ItemsEncode(lay, f, m[f.tag].vs);
      }
    } else if f.tag in m {
      ValueEncodes(lay, f.l, m[f.tag]);
    }
  }

  lemma {:induction false} PackedEncodes(l: LType, vs: seq<Value>)
    requires Packable(l) && WfType(l) && forall k | 0 <= k < |vs| :: WfValue(l, vs[k])
    ensures EncPacked(l, vs).Some?
  {
    if vs != [] {
      assert WfValue(l, vs[0]);
      PackedEncodes(l, vs[1..]);
    }
  }

  lemma {:induction false} ItemsEncode(lay: Layout, f: Field, vs: seq<Value>)
    requires WfField(f) && forall k | 0 <= k < |vs| :: WfValue(f.l, vs[k])
    ensures EncItems(lay, f, vs).Some?
    decreases f, 1, |vs|
  {
    if vs != [] {
      ValueEncodes(lay, f.l, vs[0]);
      ItemsEncode(lay, f, vs[1..]);
    }
  }

  lemma {:induction false} ValueEncodes(lay: Layout, l: LType, v: Value)
    requires WfType(l) && WfValue(l, v)
    ensures EncValue(lay, l, v).Some?
    decreases l, 0
  {
    if l.Submessage? {
      WellFormedEncodes(lay, l.desc, v.m);
    }
  }

  // ---- When the reader gets the projection ----

  /** What decoding makes of an array or submessage in field `g` that the writer left out: a fixed-count
      array is given back exactly when it starts out as zeros and is all zeros, as far as the reader
      has its elements. */
  predicate Restored(mem: Memory, g: Field, m: Message)
    decreases g, 0
  {
    g.tag in m ==>
      if FixedCount(g) then StartsZero(mem, g) && ProjectValue(g, m[g.tag]) == List(ZeroItems(g))
      else g.h == Optional(false) && g.l.Submessage? && m[g.tag].Msg? ==> AllRestored(mem, g.l.desc, m[g.tag].m)
  }

  predicate AllRestored(mem: Memory, d: Desc, m: Message)
    decreases d, 1
  {
    forall i | 0 <= i < |d.fields| :: Restored(mem, d.fields[i], m)
  }

  /** Every fixed-count array in a submessage the writer leaves out is given back. */
  predicate Faithful(lay: Layout, mem: Memory, sub: Desc, d: Desc, m: Message)
    decreases sub, 2
  {
    forall i | 0 <= i < |sub.fields| && sub.fields[i].tag in m && Has(d, sub.fields[i].tag) ::
      FaithfulField(lay, mem, sub.fields[i], FieldOf(d, sub.fields[i].tag), m, m[sub.fields[i].tag])
  }

  predicate FaithfulField(lay: Layout, mem: Memory, g: Field, f: Field, m: Message, v: Value)
    decreases g, 1
  {
    if LeftOut(lay, f, m) then Restored(mem, g, m)
    else if v.List? then forall k | 0 <= k < |v.vs| :: FaithfulItem(lay, mem, g, f, v.vs[k])
    else FaithfulItem(lay, mem, g, f, v)
  }

  predicate FaithfulItem(lay: Layout, mem: Memory, g: Field, f: Field, v: Value)
    decreases g, 0
  {
    g.l.Submessage? && f.l.Submessage? && v.Msg? ==> Faithful(lay, Within(mem, g), g.l.desc, f.l.desc, v.m)
  }

  /** A message whose fields all pass for defaults is all defaults exactly when its fixed-count arrays
      are given back. */
  lemma {:induction false} ElidedIsDefault(lay: Layout, mem: Memory, sub: Desc, d: Desc, m: Message)
    requires WfDesc(sub) && WfDesc(d) && SubDesc(sub, d) && WfMessage(d, m) && AllReadAsDefault(lay, d, m)
    ensures Project(sub, m) == Defaults(mem, sub) <==> AllRestored(mem, sub, m)
    decreases sub, 1
  {
    forall i | 0 <= i < |sub.fields|
      ensures ElidedOutcome(mem, sub.fields[i], m)
    {
      var g := sub.fields[i];
      assert WfField(g);
      var j := IndexFrom(d.fields, g.tag);
      assert SubField(g, FieldOf(d, g.tag));
      FieldWellFormed(d, m, j);
      ElidedField(lay, mem, g, d.fields[j], m);
    }
    ElidedFields(mem, sub, m);
  }

  ghost predicate ElidedOutcome(mem: Memory, g: Field, m: Message) {
    if Initially(g) then g.tag in m && (ProjectValue(g, m[g.tag]) == InitialValue(mem, g) <==> Restored(mem, g, m))
    else g.tag !in m
  }

  lemma {:induction false} ElidedField(lay: Layout, mem: Memory, g: Field, f: Field, m: Message)
    requires WfField(g) && WfField(f) && SubField(g, f) && WfFieldValue(f, m) && ReadsAsDefault(lay, f, m)
    ensures ElidedOutcome(mem, g, m)
    decreases g, 0
  {
    hide AllReadAsDefault, ReadsAsCountZero, StartsZero, ZeroItems, AllRestored, Project, Defaults, WfMessage, WfDesc;
    if f.h == Optional(false) && f.l.Submessage? {
      FieldTypes(g, f, m);
      assert AllReadAsDefault(lay, f.l.desc, m[f.tag].m);
      ElidedIsDefault(lay, mem, g.l.desc, f.l.desc, m[f.tag].m);
      ElidedSubmessage(mem, g, m);
    } else if f.h == Optional(false) {
      assert WfType(f.l) && m[f.tag] == Zero(f.l) == g.initial;
      assert !g.l.Submessage? && !g.h.Repeated?;
      assert InitialValue(mem, g) == g.initial;
      assert ProjectValue(g, m[g.tag]) == m[g.tag];
      assert Restored(mem, g, m);
    } else if f.h.Repeated? {
      ElidedArray(lay, mem, g, f, m);
    }
  }

  lemma ElidedSubmessage(mem: Memory, g: Field, m: Message)
    requires g.h == Optional(false) && g.l.Submessage? && g.tag in m && m[g.tag].Msg?
    requires Project(g.l.desc, m[g.tag].m) == Defaults(mem, g.l.desc) <==> AllRestored(mem, g.l.desc, m[g.tag].m)
    ensures ElidedOutcome(mem, g, m)
  {
    hide Project, Defaults, AllRestored;
    assert Within(mem, g) == mem && InitialValue(mem, g) == Msg(Defaults(mem, g.l.desc));
    assert ProjectValue(g, m[g.tag]) == Msg(Project(g.l.desc, m[g.tag].m));
    assert Restored(mem, g, m) == AllRestored(mem, g.l.desc, m[g.tag].m);
  }

  lemma ElidedArray(lay: Layout, mem: Memory, g: Field, f: Field, m: Message)
    requires f.h.Repeated? && WfField(g) && WfField(f) && SubField(g, f) && WfFieldValue(f, m) && ReadsAsDefault(lay, f, m)
    ensures ElidedOutcome(mem, g, m)
  {
    hide ReadsAsCountZero, StartsZero, ZeroItems, ProjectItem, WfValue, WfType, SubDesc;
    assert |ProjectValue(g, m[f.tag]).vs| == |m[f.tag].vs|;
    if f.h.counted {
      assert ProjectValue(g, m[f.tag]).vs == [];
    } else {
      ZeroItemsNotEmpty(g);
    }
  }

  lemma FieldTypes(g: Field, f: Field, m: Message)
    requires WfField(g) && WfField(f) && SubField(g, f) && WfFieldValue(f, m) && f.h == Optional(false) && f.l.Submessage? && f.tag in m
    ensures g.l.Submessage? && WfDesc(g.l.desc) && WfDesc(f.l.desc) && SubDesc(g.l.desc, f.l.desc)
    ensures m[f.tag].Msg? && WfMessage(f.l.desc, m[f.tag].m)
  {
    assert WfType(g.l) && WfType(f.l) && WfValue(f.l, m[f.tag]);
  }

  lemma ZeroItemsNotEmpty(g: Field)
    requires FixedCount(g) && WfField(g)
    ensures ZeroItems(g) != []
  {
  }

  lemma ElidedFields(mem: Memory, sub: Desc, m: Message)
    requires Distinct(sub) && forall i | 0 <= i < |sub.fields| :: ElidedOutcome(mem, sub.fields[i], m)
    ensures Project(sub, m) == Defaults(mem, sub) <==> AllRestored(mem, sub, m)
  {
    hide ProjectValue, InitialValue, Restored, ElidedOutcome, Project, Defaults, FieldOf;
    var left, right := Project(sub, m), Defaults(mem, sub);
    forall t: nat
      ensures t in left <==> t in right
      ensures t in left ==> Has(sub, t) && (left[t] == right[t] <==> Restored(mem, FieldOf(sub, t), m))
    {
      ElidedAt(mem, sub, m, t);
    }
    forall i | 0 <= i < |sub.fields|
      ensures sub.fields[i].tag in left || Restored(mem, sub.fields[i], m)
      ensures Has(sub, sub.fields[i].tag) && FieldOf(sub, sub.fields[i].tag) == sub.fields[i]
    {
      FieldOfIndex(sub, i);
      ElidedHere(mem, sub, m, i);
    }
  }

  lemma ElidedAt(mem: Memory, sub: Desc, m: Message, t: nat)
    requires Distinct(sub) && forall i | 0 <= i < |sub.fields| :: ElidedOutcome(mem, sub.fields[i], m)
    ensures t in Project(sub, m) <==> t in Defaults(mem, sub)
    ensures t in Project(sub, m) ==>
      Has(sub, t) && (Project(sub, m)[t] == Defaults(mem, sub)[t] <==> Restored(mem, FieldOf(sub, t), m))
  {
    hide ProjectValue, InitialValue, Restored;
    if Has(sub, t) {
      HasIsTag(sub, t);
      assert ElidedOutcome(mem, sub.fields[IndexFrom(sub.fields, t)], m);
    }
  }

  lemma ElidedHere(mem: Memory, sub: Desc, m: Message, i: nat)
    requires Distinct(sub) && i < |sub.fields| && ElidedOutcome(mem, sub.fields[i], m)
    ensures sub.fields[i].tag in Project(sub, m) || Restored(mem, sub.fields[i], m)
  {
    hide ProjectValue, InitialValue, AllRestored, StartsZero, ZeroItems;
    FieldOfIndex(sub, i);
  }

  /** Exactly when the reader gets the projection of the message onto its own schema. */
  lemma {:induction false} ReadsProjection(lay: Layout, mem: Memory, sub: Desc, d: Desc, m: Message)
    requires WfDesc(sub) && WfDesc(d) && SubDesc(sub, d) && WfMessage(d, m)
    ensures AsRead(lay, mem, sub, d, m) == Project(sub, m) <==> Faithful(lay, mem, sub, d, m)
    decreases sub, 2
  {
    hide AllReadAsDefault;
    forall i | 0 <= i < |sub.fields| && sub.fields[i].tag in m
      ensures Has(d, sub.fields[i].tag)
      ensures var g, f := sub.fields[i], FieldOf(d, sub.fields[i].tag);
        ReadField(lay, mem, g, f, m, m[g.tag]) == ProjectValue(g, m[g.tag]) <==> FaithfulField(lay, mem, g, f, m, m[g.tag])
    {
      var g := sub.fields[i];
      assert WfField(g);
      var j := IndexFrom(d.fields, g.tag);
      assert SubField(g, FieldOf(d, g.tag));
      FieldWellFormed(d, m, j);
      FieldReadsProjection(lay, mem, g, d.fields[j], m);
    }
    ProjectionByField(lay, mem, sub, d, m);
  }

  lemma EntryByField(lay: Layout, mem: Memory, sub: Desc, d: Desc, m: Message, t: nat)
    requires forall i | 0 <= i < |sub.fields| && sub.fields[i].tag in m :: Has(d, sub.fields[i].tag)
    requires forall i | 0 <= i < |sub.fields| && sub.fields[i].tag in m ::
      (var g, f := sub.fields[i], FieldOf(d, sub.fields[i].tag);
      ReadField(lay, mem, g, f, m, m[g.tag]) == ProjectValue(g, m[g.tag]) <==> FaithfulField(lay, mem, g, f, m, m[g.tag]))
    ensures var left, right := AsRead(lay, mem, sub, d, m), Project(sub, m);
      && (t in left <==> t in right)
      && (t in left ==>
        Has(sub, t) && Has(d, t) && t in m && (left[t] == right[t] <==> FaithfulField(lay, mem, FieldOf(sub, t), FieldOf(d, t), m, m[t])))
  {
    hide ReadField, ProjectValue, FaithfulField;
    if Has(sub, t) {
      assert sub.fields[IndexFrom(sub.fields, t)].tag == t;
    }
  }

  lemma ProjectionByField(lay: Layout, mem: Memory, sub: Desc, d: Desc, m: Message)
    requires Distinct(sub) && forall i | 0 <= i < |sub.fields| && sub.fields[i].tag in m :: Has(d, sub.fields[i].tag)
    requires forall i | 0 <= i < |sub.fields| && sub.fields[i].tag in m ::
      (var g, f := sub.fields[i], FieldOf(d, sub.fields[i].tag);
      ReadField(lay, mem, g, f, m, m[g.tag]) == ProjectValue(g, m[g.tag]) <==> FaithfulField(lay, mem, g, f, m, m[g.tag]))
    ensures AsRead(lay, mem, sub, d, m) == Project(sub, m) <==> Faithful(lay, mem, sub, d, m)
  {
    hide ReadField, ProjectValue, FaithfulField;
    var left, right := AsRead(lay, mem, sub, d, m), Project(sub, m);
    forall t: nat
      ensures t in left <==> t in right
      ensures t in left ==>
        (left[t] == right[t] <==> FaithfulField(lay, mem, FieldOf(sub, t), FieldOf(d, t), m, m[t]))
    {
      EntryByField(lay, mem, sub, d, m, t);
    }
    if left == right {
      forall i | 0 <= i < |sub.fields| && sub.fields[i].tag in m
        ensures FaithfulField(lay, mem, sub.fields[i], FieldOf(d, sub.fields[i].tag), m, m[sub.fields[i].tag])
      {
        FieldOfIndex(sub, i);
        assert sub.fields[i].tag in left;
      }
    }
  }

  lemma {:induction false} FieldReadsProjection(lay: Layout, mem: Memory, g: Field, f: Field, m: Message)
    requires WfField(g) && WfField(f) && SubField(g, f) && WfFieldValue(f, m) && f.tag in m
    ensures ReadField(lay, mem, g, f, m, m[f.tag]) == ProjectValue(g, m[f.tag]) <==> FaithfulField(lay, mem, g, f, m, m[f.tag])
    decreases g, 1
  {
    var v := m[f.tag];
    if LeftOut(lay, f, m) {
      ElidedField(lay, mem, g, f, m);
    } else if f.h.Repeated? {
      forall k | 0 <= k < |v.vs|
        ensures ReadItem(lay, mem, g, f, v.vs[k]) == ProjectItem(g, v.vs[k]) <==> FaithfulItem(lay, mem, g, f, v.vs[k])
      {
        ItemReadsProjection(lay, mem, g, f, v.vs[k]);
      }
      ListByItem(lay, mem, g, f, m, v.vs);
    } else {
      ItemReadsProjection(lay, mem, g, f, v);
    }
  }

  lemma ListByItem(lay: Layout, mem: Memory, g: Field, f: Field, m: Message, vs: seq<Value>)
    requires !LeftOut(lay, f, m)
    requires forall k | 0 <= k < |vs| :: ReadItem(lay, mem, g, f, vs[k]) == ProjectItem(g, vs[k]) <==> FaithfulItem(lay, mem, g, f, vs[k])
    ensures ReadField(lay, mem, g, f, m, List(vs)) == ProjectValue(g, List(vs)) <==> FaithfulField(lay, mem, g, f, m, List(vs))
  {
    hide ReadItem, ProjectItem, FaithfulItem;
    var left, right := ReadField(lay, mem, g, f, m, List(vs)).vs, ProjectValue(g, List(vs)).vs;
    if left == right {
      forall k | 0 <= k < |vs|
        ensures FaithfulItem(lay, mem, g, f, vs[k])
      {
        assert left[k] == right[k];
      }
    } else {
      var k :| 0 <= k < |vs| && left[k] != right[k];
    }
  }

  lemma {:induction false} ItemReadsProjection(lay: Layout, mem: Memory, g: Field, f: Field, v: Value)
    requires WfField(g) && WfField(f) && SubField(g, f) && WfValue(f.l, v)
    ensures !v.List?
    ensures ReadItem(lay, mem, g, f, v) == ProjectItem(g, v) <==> FaithfulItem(lay, mem, g, f, v)
    decreases g, 0
  {
    hide AsRead, Project, Faithful, WfMessage;
    if f.l.Submessage? {
      ReadsProjection(lay, Within(mem, g), g.l.desc, f.l.desc, v.m);
    }
  }

  // ---- Main results ----

  /** Schema evolution: bytes written under `d` and read under any sub-schema, at the end of the
      stream or before a zero byte and anything after it. */
  lemma SchemaEvolution(lay: Layout, mem: Memory, sub: Desc, d: Desc, m: Message, tail: seq<byte>)
    requires WfDesc(sub) && WfDesc(d) && SubDesc(sub, d) && WfMessage(d, m) && EndsHere(tail)
    ensures EncMessage(lay, d, m).Some?
    ensures var b := EncMessage(lay, d, m).value;
      |b| < TWO_32 ==>
        Decode(mem, sub, b + tail).Some? &&
        (Decode(mem, sub, b + tail) == Some(Got(Project(sub, m), Behind(tail))) <==> Faithful(lay, mem, sub, d, m))
  {
    hide Decode, EncMessage, AsRead, Project, Faithful, WfDesc, WfMessage, SubDesc;
    WellFormedEncodes(lay, d, m);
    if |EncMessage(lay, d, m).value| < TWO_32 {
      MessageDecodes(lay, mem, sub, d, m, tail);
      ReadsProjection(lay, mem, sub, d, m);
    }
  }

  /** The round trip, exactly when it holds. */
  lemma RoundTrip(lay: Layout, mem: Memory, d: Desc, m: Message, tail: seq<byte>)
    requires WfDesc(d) && WfMessage(d, m) && EndsHere(tail)
    ensures EncMessage(lay, d, m).Some?
    ensures var b := EncMessage(lay, d, m).value;
      |b| < TWO_32 ==>
        Decode(mem, d, b + tail).Some? && (Decode(mem, d, b + tail) == Some(Got(m, Behind(tail))) <==> Faithful(lay, mem, d, d, m))
  {
    SubDescReflexive(d);
    ProjectSelf(d, m);
    SchemaEvolution(lay, mem, d, d, m, tail);
  }

  /** pb_encode_nullterminated, and whatever follows. */
  lemma RoundTripNullTerminated(lay: Layout, mem: Memory, d: Desc, m: Message, junk: seq<byte>)
    requires WfDesc(d) && WfMessage(d, m) && Faithful(lay, mem, d, d, m)
    requires EncMessage(lay, d, m).Some? && |EncMessage(lay, d, m).value| < TWO_32
    ensures Decode(mem, d, EncMessage(lay, d, m).value + [0] + junk) == Some(Got(m, junk))
  {
    RoundTrip(lay, mem, d, m, [0] + junk);
    assert EncMessage(lay, d, m).value + [0] + junk == EncMessage(lay, d, m).value + ([0] + junk);
    assert ([0] + junk)[1..] == junk;
  }

  // ---- Schemas that lose nothing ----

  /** An array that the count word holds is all zeros whenever it is taken for empty. */
  predicate Harmless(mem: Memory, f: Field)
    requires FixedCount(f)
  {
    !f.l.Submessage? && InCountWord(mem, f)
  }

  lemma HarmlessIsZero(lay: Layout, mem: Memory, f: Field, m: Message)
    requires FixedCount(f) && Harmless(mem, f) && WfField(f) && WfFieldValue(f, m) && ReadsAsDefault(lay, f, m)
    ensures m[f.tag] == List(ZeroItems(f))
  {
    var vs, n := m[f.tag].vs, f.h.arraySize;
    forall k | 0 <= k < n
      ensures vs[k] == Zero(f.l)
    {
      assert WfValue(f.l, vs[k]);
      ElementIsZero(lay, mem, f, m, vs, k);
    }
    assert vs == ZeroItems(f);
  }

  lemma ElementIsZero(lay: Layout, mem: Memory, f: Field, m: Message, vs: seq<Value>, k: nat)
    requires FixedCount(f) && Harmless(mem, f) && WfType(f.l) && |vs| == f.h.arraySize && k < |vs|
    requires WfValue(f.l, vs[k]) && ReadsAsCountZero(lay, f, m, vs)
    ensures vs[k] == Zero(f.l)
  {
    Within4(k, |vs|, SizeOf(f.l));
    match f.l
    case FixedBytes(size) =>
      assert FirstBytesZero(vs[k], COUNT_SIZE - k * size);
      assert vs[k].b == seq(size, _ => 0);
    case _ =>
  }

  /** The element `k` of `n` lies in the word as soon as the last one does. */
  lemma Within4(k: nat, n: nat, size: nat)
    requires k < n
    ensures n * size <= COUNT_SIZE ==> k * size + size <= COUNT_SIZE
    ensures (n - 1) * size < COUNT_SIZE ==> k * size < COUNT_SIZE
    ensures size > 0 && n * size <= COUNT_SIZE ==> size <= COUNT_SIZE
  {
    var rest := n - 1 - k;
    assert n * size == k * size + size + rest * size;
    assert (n - 1) * size == k * size + rest * size;
  }

  predicate HoldsFixedArray(mem: Memory, d: Desc)
    decreases d, 1
  {
    exists i | 0 <= i < |d.fields| :: FixedArrayIn(mem, d.fields[i])
  }

  /** A fixed-count array that may be taken for empty though it is not. */
  predicate FixedArrayIn(mem: Memory, f: Field)
    decreases f, 0
  {
    (FixedCount(f) && !Harmless(mem, f)) || (f.h == Optional(false) && f.l.Submessage? && HoldsFixedArray(mem, f.l.desc))
  }

  /** A schema without such arrays under proto3 submessages: every message round-trips. */
  predicate NeverMistaken(mem: Memory, d: Desc)
    decreases d
  {
    forall i | 0 <= i < |d.fields| && d.fields[i].l.Submessage? ::
      NeverMistaken(Within(mem, d.fields[i]), d.fields[i].l.desc)
      && !(d.fields[i].h == Optional(false) && HoldsFixedArray(mem, d.fields[i].l.desc))
  }

  lemma {:induction false} ElidedRestored(lay: Layout, mem: Memory, g: Field, f: Field, m: Message)
    requires WfField(g) && WfField(f) && SubField(g, f) && WfFieldValue(f, m) && ReadsAsDefault(lay, f, m) && !FixedArrayIn(mem, g)
    ensures Restored(mem, g, m)
    decreases g, 0
  {
    hide AllReadAsDefault, ReadsAsCountZero, ZeroItems, Project, WfMessage, WfDesc, HoldsFixedArray, AllRestored, Harmless, InCountWord;
    if FixedCount(g) {
      HarmlessMeans(mem, g);
      SameArray(mem, g, f);
      HarmlessIsZero(lay, mem, f, m);
      ZeroProjects(g);
    } else if f.h == Optional(false) && f.l.Submessage? {
      FieldTypes(g, f, m);
      AllElidedRestored(lay, mem, g.l.desc, f.l.desc, m[f.tag].m);
    }
  }

  lemma HarmlessMeans(mem: Memory, g: Field)
    requires FixedCount(g) && Harmless(mem, g)
    ensures !g.l.Submessage? && StartsZero(mem, g)
  {
  }

  lemma SameArray(mem: Memory, g: Field, f: Field)
    requires FixedCount(g) && SubField(g, f) && Harmless(mem, g)
    ensures FixedCount(f) && Harmless(mem, f) && ZeroItems(f) == ZeroItems(g)
  {
  }

  lemma ZeroProjects(g: Field)
    requires FixedCount(g) && !g.l.Submessage?
    ensures ProjectValue(g, List(ZeroItems(g))) == List(ZeroItems(g))
  {
    assert ProjectValue(g, List(ZeroItems(g))).vs == ZeroItems(g);
  }

  lemma {:induction false} AllElidedRestored(lay: Layout, mem: Memory, sub: Desc, d: Desc, m: Message)
    requires WfDesc(sub) && WfDesc(d) && SubDesc(sub, d) && WfMessage(d, m) && AllReadAsDefault(lay, d, m)
    requires !HoldsFixedArray(mem, sub)
    ensures AllRestored(mem, sub, m)
    decreases sub, 1
  {
    forall i | 0 <= i < |sub.fields|
      ensures Restored(mem, sub.fields[i], m)
    {
      var g := sub.fields[i];
      assert WfField(g);
      var j := IndexFrom(d.fields, g.tag);
      assert SubField(g, FieldOf(d, g.tag));
      FieldWellFormed(d, m, j);
      ElidedRestored(lay, mem, g, d.fields[j], m);
    }
  }

  lemma {:induction false} AlwaysFaithful(lay: Layout, mem: Memory, sub: Desc, d: Desc, m: Message)
    requires WfDesc(sub) && WfDesc(d) && SubDesc(sub, d) && WfMessage(d, m) && NeverMistaken(mem, sub)
    ensures Faithful(lay, mem, sub, d, m)
    decreases sub, 1
  {
    forall i | 0 <= i < |sub.fields| && sub.fields[i].tag in m && Has(d, sub.fields[i].tag)
      ensures FaithfulField(lay, mem, sub.fields[i], FieldOf(d, sub.fields[i].tag), m, m[sub.fields[i].tag])
    {
      var g := sub.fields[i];
      assert WfField(g);
      var j := IndexFrom(d.fields, g.tag);
      assert SubField(g, FieldOf(d, g.tag));
      FieldWellFormed(d, m, j);
      FieldAlwaysFaithful(lay, mem, g, d.fields[j], m);
    }
  }

  lemma {:induction false} FieldAlwaysFaithful(lay: Layout, mem: Memory, g: Field, f: Field, m: Message)
    requires WfField(g) && WfField(f) && SubField(g, f) && WfFieldValue(f, m) && f.tag in m
    requires g.l.Submessage? ==>
      NeverMistaken(Within(mem, g), g.l.desc) && !(g.h == Optional(false) && HoldsFixedArray(mem, g.l.desc))
    ensures FaithfulField(lay, mem, g, f, m, m[f.tag])
    decreases g, 1
  {
    hide NeverMistaken, HoldsFixedArray, ReadsAsDefault, Faithful, WfType, Restored;
    var v := m[f.tag];
    if LeftOut(lay, f, m) {
      ElidedRestored(lay, mem, g, f, m);
    } else if f.h.Repeated? {
      forall k | 0 <= k < |v.vs|
        ensures FaithfulItem(lay, mem, g, f, v.vs[k])
      {
        ItemAlwaysFaithful(lay, mem, g, f, v.vs[k]);
      }
    } else {
      ItemAlwaysFaithful(lay, mem, g, f, v);
    }
  }

  lemma {:induction false} ItemAlwaysFaithful(lay: Layout, mem: Memory, g: Field, f: Field, v: Value)
    requires WfField(g) && WfField(f) && SubField(g, f) && WfValue(f.l, v)
    requires g.l.Submessage? ==> NeverMistaken(Within(mem, g), g.l.desc)
    ensures !v.List? && FaithfulItem(lay, mem, g, f, v)
    decreases g, 0
  {
    hide NeverMistaken, Faithful, WfMessage;
    if f.l.Submessage? {
      assert WfType(g.l) && WfType(f.l);
      AlwaysFaithful(lay, Within(mem, g), g.l.desc, f.l.desc, v.m);
    }
  }

  // ---- An array of uint32 alone in a proto3 submessage ----

  function ArrayOf(n: nat): Field {
    Field(1, Repeated(n, false), UVarint(4), Num(0))
  }

  function Holder(n: nat): Desc {
    Desc([ArrayOf(n)])
  }

  function Outer(n: nat): Desc {
    Desc([Field(1, Optional(false), Submessage(Holder(n)), Num(0))])
  }

  function Held(vs: seq<Value>): Message {
    map[1 := List(vs)]
  }

  predicate Uint32s(vs: seq<Value>) {
    forall k | 0 <= k < |vs| :: WfValue(UVarint(4), vs[k])
  }

  /** Exactly when an array whose first element is zero survives: it is left out whatever follows. */
  lemma FixedArrayAlone(lay: Layout, mem: Memory, vs: seq<Value>)
    requires vs != [] && Uint32s(vs) && vs[0] == Num(0)
    ensures WfDesc(Outer(|vs|)) && WfMessage(Outer(|vs|), map[1 := Msg(Held(vs))])
    ensures EncMessage(lay, Outer(|vs|), map[1 := Msg(Held(vs))]) == Some([])
    ensures Decode(mem, Outer(|vs|), []) == Some(Got(map[1 := Msg(Held(vs))], []))
      <==> (mem.zeroed || |vs| == 1) && forall k | 0 <= k < |vs| :: vs[k] == Num(0)
  {
    hide Faithful, EncMessage, WfDesc, WfMessage, Decode, AllRestored, Held, Outer;
    var n := |vs|;
    var m := map[1 := Msg(Held(vs))];
    HolderElided(lay, vs);
    OuterWritten(lay, vs, m);
    HolderRestored(mem, vs);
    OuterFaithful(lay, mem, vs, m);
    var none: seq<byte> := [];
    RoundTrip(lay, mem, Outer(n), m, none);
    assert none + none == none;
  }

  lemma HolderElided(lay: Layout, vs: seq<Value>)
    requires vs != [] && Uint32s(vs) && vs[0] == Num(0)
    ensures WfDesc(Holder(|vs|)) && WfMessage(Holder(|vs|), Held(vs)) && AllReadAsDefault(lay, Holder(|vs|), Held(vs))
  {
    var f := ArrayOf(|vs|);
    assert Holder(|vs|).fields == [f] && WfField(f);
    assert WfFieldValue(f, Held(vs));
    forall k | 0 <= k < |vs| && k * 4 < COUNT_SIZE
      ensures LowWordZero(4, vs[k])
    {
      assert k == 0;
    }
    assert ReadsAsDefault(lay, f, Held(vs));
  }

  lemma OuterWritten(lay: Layout, vs: seq<Value>, m: Message)
    requires WfDesc(Holder(|vs|)) && WfMessage(Holder(|vs|), Held(vs)) && AllReadAsDefault(lay, Holder(|vs|), Held(vs))
    requires m == map[1 := Msg(Held(vs))]
    ensures WfDesc(Outer(|vs|)) && WfMessage(Outer(|vs|), m) && LeftOut(lay, Outer(|vs|).fields[0], m)
    ensures EncMessage(lay, Outer(|vs|), m) == Some([])
  {
    hide AllReadAsDefault, Holder, Held;
    var d := Outer(|vs|);
    var f := d.fields[0];
    assert WfType(f.l) && WfField(f);
    assert WfValue(f.l, m[1]);
    assert WfFieldValue(f, m);
    assert EncField(lay, f, m) == Some([]);
    assert EncFields(lay, d, m, 1) == Some([]);
    assert EncFields(lay, d, m, 0).value == [];
  }

  lemma HolderRestored(mem: Memory, vs: seq<Value>)
    requires vs != []
    ensures AllRestored(mem, Holder(|vs|), Held(vs))
      <==> (mem.zeroed || |vs| == 1) && forall k | 0 <= k < |vs| :: vs[k] == Num(0)
  {
    var g := ArrayOf(|vs|);
    assert Holder(|vs|).fields == [g];
    assert AllRestored(mem, Holder(|vs|), Held(vs)) <==> Restored(mem, Holder(|vs|).fields[0], Held(vs));
    assert ProjectValue(g, List(vs)).vs == vs;
    assert InCountWord(mem, g) <==> |vs| == 1;
    assert StartsZero(mem, g) <==> mem.zeroed || |vs| == 1;
    assert vs == ZeroItems(g) <==> forall k | 0 <= k < |vs| :: vs[k] == Num(0);
  }

  lemma OuterFaithful(lay: Layout, mem: Memory, vs: seq<Value>, m: Message)
    requires m == map[1 := Msg(Held(vs))] && LeftOut(lay, Outer(|vs|).fields[0], m)
    ensures Faithful(lay, mem, Outer(|vs|), Outer(|vs|), m) <==> AllRestored(mem, Holder(|vs|), Held(vs))
  {
    hide AllRestored, Holder, Held, LeftOut;
    var d := Outer(|vs|);
    var f := d.fields[0];
    FieldOfIndex(d, 0);
    assert d.fields == [f];
    assert Faithful(lay, mem, d, d, m) <==> FaithfulField(lay, mem, f, f, m, m[1]);
  }

  /** What is left out and does not come back: of zero and five the reader gets two zeros at best. */
  lemma FixedArrayLost(lay: Layout, mem: Memory)
    ensures EncMessage(lay, Outer(2), map[1 := Msg(Held([Num(0), Num(5)]))]) == Some([])
    ensures Decode(mem, Outer(2), [])
      == Some(Got(map[1 := Msg(Held(if mem.zeroed then [Num(0), Num(0)] else []))], []))
  {
    hide EncMessage, Decode;
    FixedArrayAlone(lay, mem, [Num(0), Num(5)]);
    NothingRead(mem);
  }

  lemma NothingRead(mem: Memory)
    ensures Decode(mem, Outer(2), [])
      == Some(Got(map[1 := Msg(Held(if mem.zeroed then [Num(0), Num(0)] else []))], []))
  {
    hide Defaults;
    var d := Outer(2);
    var f := d.fields[0];
    HolderStarts(mem);
    FieldOfIndex(d, 0);
    assert Tags(d) == {1} && FieldOf(d, 1) == f;
    assert InitialValue(mem, f) == Msg(Defaults(mem, Holder(2)));
    OneFieldDefaults(mem, d, f);
    assert RequiredBefore(d, 1) == 0;
  }

  lemma OneFieldDefaults(mem: Memory, d: Desc, f: Field)
    requires d.fields == [f] && Initially(f)
    ensures Defaults(mem, d) == map[f.tag := InitialValue(mem, f)]
  {
    hide InitialValue;
    FieldOfIndex(d, 0);
    assert Tags(d) == {f.tag};
  }

  lemma HolderStarts(mem: Memory)
    ensures Defaults(mem, Holder(2)) == Held(if mem.zeroed then [Num(0), Num(0)] else [])
  {
    var g := ArrayOf(2);
    OneFieldDefaults(mem, Holder(2), g);
    assert ZeroItems(g) == [Num(0), Num(0)];
    assert !InCountWord(mem, g);
  }

  /** A zero that is left out and comes back whatever the destination held. */
  lemma FixedArrayKept(lay: Layout, mem: Memory)
    ensures EncMessage(lay, Outer(1), map[1 := Msg(Held([Num(0)]))]) == Some([])
    ensures Decode(mem, Outer(1), []) == Some(Got(map[1 := Msg(Held([Num(0)]))], []))
  {
    hide EncMessage, Decode;
    FixedArrayAlone(lay, mem, [Num(0)]);
  }
}
