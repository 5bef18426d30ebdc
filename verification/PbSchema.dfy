/** nanopb schemas and messages as values. A message maps the tags it has to their values: an
    optional field with a has_ flag, or a member of a oneof, is in the map when it is present;
    every other field always is. */
module PbSchema {
  import opened Common
  import opened PbWire

  /** PB_LTYPE. Integer types carry the size of the C integer in bytes; `Bytes` the capacity of
      the array, `Str` the size of the char array, `FixedBytes` its exact length. */
  datatype LType =
    | Varint(size: nat) | UVarint(size: nat) | SVarint(size: nat) | Fixed32 | Fixed64
    | Bytes(capacity: nat) | Str(dataSize: nat) | FixedBytes(length: nat)
    | Submessage(desc: Desc)

  /** PB_HTYPE. A repeated field has either a count beside it or a fixed count. */
  datatype HType = Required | Optional(hasFlag: bool) | Repeated(arraySize: nat, counted: bool) | Oneof(group: nat)

  datatype Field = Field(tag: nat, h: HType, l: LType, initial: Value)

  datatype Desc = Desc(fields: seq<Field>)

  datatype Value = Num(n: int) | Blob(b: seq<byte>) | Msg(m: map<nat, Value>) | List(vs: seq<Value>)

  type Message = map<nat, Value>

  function Packable(l: LType): bool {
    l.Varint? || l.UVarint? || l.SVarint? || l.Fixed32? || l.Fixed64?
  }

  function WireType(l: LType): (w: nat)
    ensures w < 8
  {
    match l
    case Varint(_) => WT_VARINT
    case UVarint(_) => WT_VARINT
    case SVarint(_) => WT_VARINT
    case Fixed32 => WT_32BIT
    case Fixed64 => WT_64BIT
    case _ => WT_STRING
  }

  function IndexFrom(fields: seq<Field>, tag: nat): (i: nat)
    ensures i <= |fields|
    ensures i < |fields| ==> fields[i].tag == tag
    ensures forall k | 0 <= k < i :: fields[k].tag != tag
  {
    if fields == [] || fields[0].tag == tag then 0 else 1 + IndexFrom(fields[1..], tag)
  }

  predicate Has(d: Desc, tag: nat) {
    IndexFrom(d.fields, tag) < |d.fields|
  }

  function FieldOf(d: Desc, tag: nat): (f: Field)
    requires Has(d, tag)
    ensures f in d.fields && f.tag == tag
  {
    d.fields[IndexFrom(d.fields, tag)]
  }

  function Tags(d: Desc): set<nat> {
    set f <- d.fields :: f.tag
  }

  lemma HasIsTag(d: Desc, tag: nat)
    ensures Has(d, tag) <==> tag in Tags(d)
  {
  }

  predicate Distinct(d: Desc) {
    forall i, j | 0 <= i < j < |d.fields| :: d.fields[i].tag != d.fields[j].tag
  }

  // ---- Well-formed schemas and messages ----

  predicate IntegerSize(n: nat) {
    n == 1 || n == 2 || n == 4 || n == 8
  }

  /** What memory of zeros holds. */
  function Zero(l: LType): Value
    decreases l, 0
  {
    match l
    case Bytes(_) => Blob([])
    case Str(_) => Blob([])
    case FixedBytes(n) => Blob(seq(n, _ => 0))
    case Submessage(d) => Msg(ZeroMessage(d))
    case _ => Num(0)
  }

  function ZeroMessage(d: Desc): Message
    decreases d, 2
  {
    map t <- Tags(d) | Has(d, t) && Initially(FieldOf(d, t)) :: ZeroField(FieldOf(d, t))
  }

  /** No flag is set in it, no count, and no member of a oneof chosen. */
  function ZeroField(f: Field): Value
    decreases f, 1
  {
    if !f.h.Repeated? then Zero(f.l) else if f.h.counted then List([]) else List(ZeroItems(f))
  }

  function ZeroItems(f: Field): (vs: seq<Value>)
    requires f.h.Repeated?
    ensures |vs| == f.h.arraySize
    decreases f, 0
  {
    seq(f.h.arraySize, _ => Zero(f.l))
  }

  predicate WfDesc(d: Desc)
    decreases d, 1
  {
    Distinct(d) && forall i | 0 <= i < |d.fields| :: WfField(d.fields[i])
  }

  /** Tags are below 2^29, integers have C sizes, arrays are not empty, and proto3 fields start
      out as zero. */
  predicate WfField(f: Field)
    decreases f, 0
  {
    && 0 < f.tag < 0x2000_0000
    && WfType(f.l)
    && (f.h.Repeated? ==> f.h.arraySize > 0)
    && (f.h == Optional(false) && !f.l.Submessage? ==> f.initial == Zero(f.l))
  }

  predicate WfType(l: LType)
    decreases l, 2
  {
    match l
    case Varint(n) => IntegerSize(n)
    case UVarint(n) => IntegerSize(n)
    case SVarint(n) => IntegerSize(n)
    case FixedBytes(n) => n > 0
    case Submessage(d) => WfDesc(d)
    case _ => true
  }

  function SignedBound(size: nat): int {
    if size == 1 then 0x80 else if size == 2 then 0x8000 else if size == 4 then 0x8000_0000 else TWO_63
  }

  predicate WfMessage(d: Desc, m: Message)
    decreases d, 2
  {
    && (forall t <- m :: Has(d, t))
    && (forall i | 0 <= i < |d.fields| :: WfFieldValue(d.fields[i], m))
    && (forall i, j | 0 <= i < j < |d.fields| && d.fields[i].h.Oneof? && d.fields[i].h == d.fields[j].h ::
          d.fields[i].tag !in m || d.fields[j].tag !in m)
  }

  predicate WfFieldValue(f: Field, m: Message)
    decreases f, 1
  {
    match f.h
    case Required => f.tag in m && WfValue(f.l, m[f.tag])
    case Optional(hasFlag) => if f.tag in m then WfValue(f.l, m[f.tag]) else hasFlag
    case Oneof(_) => f.tag in m ==> WfValue(f.l, m[f.tag])
    case Repeated(n, counted) =>
      && f.tag in m && m[f.tag].List?
      && var vs := m[f.tag].vs;
      && |vs| <= n && (!counted ==> |vs| == n)
      && forall i | 0 <= i < |vs| :: WfValue(f.l, vs[i])
  }

  /** The value fits the C field and survives a C string. */
  predicate WfValue(l: LType, v: Value)
    decreases l, 0
  {
    match l
    case Varint(n) => v.Num? && -SignedBound(n) <= v.n < SignedBound(n)
    case SVarint(n) => v.Num? && -SignedBound(n) <= v.n < SignedBound(n)
    case UVarint(n) => v.Num? && 0 <= v.n < 2 * SignedBound(n)
    case Fixed32 => v.Num? && 0 <= v.n < TWO_32
    case Fixed64 => v.Num? && 0 <= v.n < TWO_64
    case Bytes(n) => v.Blob? && |v.b| <= n
    case Str(n) => v.Blob? && |v.b| < n && 0 !in v.b
    case FixedBytes(n) => v.Blob? && |v.b| == n
    case Submessage(d) => v.Msg? && WfMessage(d, v.m)
  }

  lemma WellFormedDistinct(d: Desc)
    requires WfDesc(d)
    ensures Distinct(d)
  {
  }

  // ---- Initial values ----

  predicate Initially(f: Field) {
    f.h == Required || f.h == Optional(false) || f.h.Repeated?
  }

  /** sizeof(pb_size_t): the build defines PB_FIELD_32BIT. */
  const COUNT_SIZE := 4

  /** What the decoder finds in the struct it decodes into: whether all of it has been zeroed, as it is
      for a submessage in a oneof, and for which arrays of submessages the C layout leaves nothing
      outside the word that pb_field_set_to_default clears as their count. */
  datatype Memory = Memory(zeroed: bool, inWord: Field -> bool)

  /** The memory of a submessage in field `f`: decode_static_field clears a member of a oneof. */
  function Within(mem: Memory, f: Field): Memory {
    if f.h.Oneof? then mem.(zeroed := true) else mem
  }

  function SizeOf(l: LType): nat {
    match l
    case Varint(n) => n
    case UVarint(n) => n
    case SVarint(n) => n
    case Fixed32 => 4
    case Fixed64 => 8
    case FixedBytes(n) => n
    case Str(n) => n
    case _ => 0
  }

  predicate FixedCount(f: Field) {
    f.h.Repeated? && !f.h.counted
  }

  /** A fixed-count array has no count beside it, so pSize is pData and clearing the count clears the
      first COUNT_SIZE bytes of the array. That settles all its elements if they lie in them; of an
      array of bytes the size, of a string the first character. */
  predicate InCountWord(mem: Memory, f: Field)
    requires FixedCount(f)
  {
    var n := f.h.arraySize;
    match f.l
    case Submessage(_) => mem.inWord(f)
    case Bytes(_) => n <= 1
    case Str(size) => n == 0 || (n - 1) * size < COUNT_SIZE
    case _ => n * SizeOf(f.l) <= COUNT_SIZE
  }

  /** Whether a fixed-count array starts out as zeros; otherwise it is left to the destination. */
  predicate StartsZero(mem: Memory, f: Field)
    requires FixedCount(f)
  {
    mem.zeroed || InCountWord(mem, f)
  }

  /** pb_message_set_to_defaults. */
  function Defaults(mem: Memory, d: Desc): Message
    decreases d, 1
  {
    map t <- Tags(d) | Has(d, t) && Initially(FieldOf(d, t)) :: InitialValue(mem, FieldOf(d, t))
  }

  /** pb_field_set_to_default. A repeated field starts with no elements. A fixed-count array always
      has its elements: zeros, or else whatever the destination held, which counts as none here. */
  function InitialValue(mem: Memory, f: Field): Value
    decreases f, 1
  {
    if f.h.Repeated? then List(if FixedCount(f) && StartsZero(mem, f) then ZeroItems(f) else []) else ResetValue(mem, f)
  }

  /** The data of one element. */
  function ResetValue(mem: Memory, f: Field): Value
    decreases f, 0
  {
    if f.l.Submessage? then Msg(Defaults(Within(mem, f), f.l.desc)) else f.initial
  }

  // ---- Sub-schemas ----

  /** `sub` drops fields of `d`, at any depth, and keeps the rest as they are. */
  predicate SubDesc(sub: Desc, d: Desc)
    decreases sub, 1
  {
    forall i | 0 <= i < |sub.fields| ::
      Has(d, sub.fields[i].tag) && SubField(sub.fields[i], FieldOf(d, sub.fields[i].tag))
  }

  predicate SubField(sub: Field, f: Field)
    decreases sub, 0
  {
    && sub.tag == f.tag && sub.h == f.h && sub.initial == f.initial
    && if sub.l.Submessage? then f.l.Submessage? && SubDesc(sub.l.desc, f.l.desc) else sub.l == f.l
  }

  /** What is left of a message when only the fields of `d` are kept. */
  function Project(d: Desc, m: Message): Message
    decreases d, 2
  {
    map t <- m | Has(d, t) :: ProjectValue(FieldOf(d, t), m[t])
  }

  function ProjectValue(f: Field, v: Value): Value
    decreases f, 1
  {
    if v.List? then List(seq(|v.vs|, i requires 0 <= i < |v.vs| => ProjectItem(f, v.vs[i])))
    else ProjectItem(f, v)
  }

  function ProjectItem(f: Field, v: Value): Value
    decreases f, 0
  {
    if f.l.Submessage? && v.Msg? then Msg(Project(f.l.desc, v.m)) else v
  }

  lemma {:induction false} SubDescReflexive(d: Desc)
    requires WfDesc(d)
    ensures SubDesc(d, d)
    decreases d
  {
    forall i | 0 <= i < |d.fields|
      ensures Has(d, d.fields[i].tag) && SubField(d.fields[i], FieldOf(d, d.fields[i].tag))
    {
      FieldOfIndex(d, i);
      assert WfField(d.fields[i]) && WfType(d.fields[i].l);
      if d.fields[i].l.Submessage? {
        SubDescReflexive(d.fields[i].l.desc);
      }
    }
  }

  lemma FieldOfIndex(d: Desc, i: nat)
    requires Distinct(d) && i < |d.fields|
    ensures Has(d, d.fields[i].tag) && FieldOf(d, d.fields[i].tag) == d.fields[i]
    ensures IndexFrom(d.fields, d.fields[i].tag) == i
  {
  }

  /** Nothing is lost when every field is kept. */
  lemma {:induction false} ProjectSelf(d: Desc, m: Message)
    requires WfDesc(d) && WfMessage(d, m)
    ensures Project(d, m) == m
    decreases d, 2
  {
    forall t | t in m
      ensures Has(d, t) && ProjectValue(FieldOf(d, t), m[t]) == m[t]
    {
      var f := FieldOf(d, t);
      var i :| 0 <= i < |d.fields| && d.fields[i] == f;
      assert WfField(d.fields[i]) && WfFieldValue(d.fields[i], m);
      ProjectValueSelf(f, m);
    }
  }

  lemma {:induction false} ProjectValueSelf(f: Field, m: Message)
    requires WfField(f) && WfFieldValue(f, m) && f.tag in m
    ensures ProjectValue(f, m[f.tag]) == m[f.tag]
    decreases f, 1
  {
    var v := m[f.tag];
    if f.h.Repeated? {
      forall k | 0 <= k < |v.vs|
        ensures ProjectItem(f, v.vs[k]) == v.vs[k]
      {
        ProjectItemSelf(f, v.vs[k]);
      }
      assert ProjectValue(f, v).vs == v.vs;
    } else {
      ProjectItemSelf(f, v);
    }
  }

  lemma {:induction false} ProjectItemSelf(f: Field, v: Value)
    requires WfField(f) && WfValue(f.l, v)
    ensures !v.List? && ProjectItem(f, v) == v
    decreases f, 0
  {
    if f.l.Submessage? {
      ProjectSelf(f.l.desc, v.m);
    }
  }
}
