/** What pb_encode writes and what it leaves out or refuses. */
module PbWritten {
  import opened Common
  import opened PbWire
  import opened PbSchema
  import opened PbCodec
  import opened PbRoundTrip

  /** A value of the right kind that its field has room for. */
  predicate Writable(lay: Layout, l: LType, v: Value)
    decreases l, 0
  {
    match l
    case Bytes(n) => v.Blob? && |v.b| <= n
    case Str(n) => v.Blob? && |v.b| <= n && 0 !in v.b
    case FixedBytes(n) => v.Blob? && |v.b| == n
    case Submessage(d) => v.Msg? && AllWritable(lay, d, v.m)
    case _ => EncScalar(l, v).Some?
  }

  /** An array has no more elements than its field has room for, and exactly as many if it has no count. */
  predicate FieldWritable(lay: Layout, f: Field, m: Message)
    decreases f, 1
  {
    match f.h
    case Repeated(n, counted) =>
      && f.tag in m && m[f.tag].List? && |m[f.tag].vs| <= n && (!counted ==> |m[f.tag].vs| == n)
      && forall k | 0 <= k < |m[f.tag].vs| :: Writable(lay, f.l, m[f.tag].vs[k])
    case _ =>
      if f.tag !in m then f.h != Required && f.h != Optional(false)
      else (f.h == Optional(false) && ReadsAsDefault(lay, f, m)) || Writable(lay, f.l, m[f.tag])
  }

  predicate AllWritable(lay: Layout, d: Desc, m: Message)
    decreases d, 1
  {
    forall i | 0 <= i < |d.fields| :: FieldWritable(lay, d.fields[i], m)
  }

  /** Exactly which messages can be encoded: an array or a string that is too long is refused, not cut. */
  lemma {:induction false} EncodesExactly(lay: Layout, d: Desc, m: Message)
    ensures EncMessage(lay, d, m).Some? <==> AllWritable(lay, d, m)
    decreases d, 3
  {
    hide EncField, FieldWritable;
    FieldsEncodeExactly(lay, d, m, 0);
  }

  lemma {:induction false} FieldsEncodeExactly(lay: Layout, d: Desc, m: Message, i: nat)
    requires i <= |d.fields|
    ensures EncFields(lay, d, m, i).Some? <==> forall j | i <= j < |d.fields| :: FieldWritable(lay, d.fields[j], m)
    decreases d, 2, |d.fields| - i
  {
    hide EncField, FieldWritable;
    if i < |d.fields| {
      FieldEncodesExactly(lay, d.fields[i], m);
      FieldsEncodeExactly(lay, d, m, i + 1);
    }
  }

  lemma {:induction false} FieldEncodesExactly(lay: Layout, f: Field, m: Message)
    ensures EncField(lay, f, m).Some? <==> FieldWritable(lay, f, m)
    decreases f, 2
  {
    hide EncTagFor, EncTag, WithLength, ReadsAsDefault, Writable, EncValue;
    if f.h.Repeated? {
      if f.tag in m && m[f.tag].List? {
        if Packable(f.l) {
          PackedExactly(lay, f.l, m[f.tag].vs);
        } else {
          ItemsExactly(lay, f, m[f.tag].vs);
        }
      }
    } else if f.tag in m {
      ValueExactly(lay, f.l, m[f.tag]);
    }
  }

  lemma {:induction false} PackedExactly(lay: Layout, l: LType, vs: seq<Value>)
    requires Packable(l)
    ensures EncPacked(l, vs).Some? <==> forall k | 0 <= k < |vs| :: Writable(lay, l, vs[k])
  {
    hide EncScalar;
    if vs != [] {
      PackedExactly(lay, l, vs[1..]);
      assert forall k | 0 < k < |vs| :: vs[k] == vs[1..][k - 1];
      assert forall k | 0 <= k < |vs[1..]| :: vs[1..][k] == vs[k + 1];
    }
  }

  lemma {:induction false} ItemsExactly(lay: Layout, f: Field, vs: seq<Value>)
    ensures EncItems(lay, f, vs).Some? <==> forall k | 0 <= k < |vs| :: Writable(lay, f.l, vs[k])
    decreases f, 1, |vs|
  {
    hide EncValue, Writable;
    if vs != [] {
      ValueExactly(lay, f.l, vs[0]);
      ItemsExactly(lay, f, vs[1..]);
      assert forall k | 0 < k < |vs| :: vs[k] == vs[1..][k - 1];
      assert forall k | 0 <= k < |vs[1..]| :: vs[1..][k] == vs[k + 1];
    }
  }

  lemma {:induction false} ValueExactly(lay: Layout, l: LType, v: Value)
    ensures EncValue(lay, l, v).Some? <==> Writable(lay, l, v)
    decreases l, 0
  {
    hide EncScalar, EncMessage, AllWritable;
    if l.Submessage? && v.Msg? {
      EncodesExactly(lay, l.desc, v.m);
    }
  }

  // ---- What proto3 leaves out ----

  /** A proto3 number or string is written exactly if it is not zero or empty, and bytes of a fixed length
      always are. */
  lemma WrittenUnlessZero(lay: Layout, f: Field, m: Message)
    requires f.h == Optional(false) && !f.l.Submessage? && WfField(f) && f.tag in m && WfValue(f.l, m[f.tag])
    ensures EncField(lay, f, m).Some?
    ensures EncField(lay, f, m) == Some([]) <==> m[f.tag] == Num(0) || (m[f.tag] == Blob([]) && !f.l.FixedBytes?)
  {
    hide EncTag, EncScalar, WithLength;
    TagNotEmpty(f.tag, WireType(f.l));
    if Packable(f.l) {
      NumberWritten(f.l, m[f.tag]);
    }
  }

  lemma NumberWritten(l: LType, v: Value)
    requires WfValue(l, v) && Packable(l) && WfType(l)
    ensures EncScalar(l, v).Some?
  {
  }

  /** A proto3 submessage is left out exactly if each of its fields is written as nothing, or is a fixed-count
      array whose first bytes are zero. */
  lemma SubmessageWritten(lay: Layout, f: Field, m: Message)
    requires f.h == Optional(false) && f.l.Submessage? && f.tag in m && m[f.tag].Msg? && EncField(lay, f, m).Some?
    ensures var e, sub := f.l.desc, m[f.tag].m;
      EncField(lay, f, m) == Some([]) <==>
        forall i | 0 <= i < |e.fields| ::
          if e.fields[i].h.Repeated? && !e.fields[i].h.counted
          then e.fields[i].tag in sub && sub[e.fields[i].tag].List? && ReadsAsCountZero(lay, e.fields[i], sub, sub[e.fields[i].tag].vs)
          else EncField(lay, e.fields[i], sub) == Some([])
  {
    hide EncTag, EncMessage, WithLength, EncField, ReadsAsCountZero, ReadsAsDefault;
    var e, sub := f.l.desc, m[f.tag].m;
    WrittenOrDefault(lay, f, m);
    forall i | 0 <= i < |e.fields|
      ensures ReadsAsDefault(lay, e.fields[i], sub) <==>
        if e.fields[i].h.Repeated? && !e.fields[i].h.counted
        then e.fields[i].tag in sub && sub[e.fields[i].tag].List? && ReadsAsCountZero(lay, e.fields[i], sub, sub[e.fields[i].tag].vs)
        else EncField(lay, e.fields[i], sub) == Some([])
    {
      NothingOrDefault(lay, e.fields[i], sub);
    }
    DefaultOfAll(lay, f, m);
  }

  lemma DefaultOfAll(lay: Layout, f: Field, m: Message)
    requires f.h == Optional(false) && f.l.Submessage? && f.tag in m && m[f.tag].Msg?
    ensures ReadsAsDefault(lay, f, m) <==> forall i | 0 <= i < |f.l.desc.fields| :: ReadsAsDefault(lay, f.l.desc.fields[i], m[f.tag].m)
  {
  }

  lemma WrittenOrDefault(lay: Layout, f: Field, m: Message)
    requires f.h == Optional(false) && f.tag in m && EncField(lay, f, m).Some?
    ensures EncField(lay, f, m) == Some([]) <==> ReadsAsDefault(lay, f, m)
  {
    hide EncTag, EncValue, ReadsAsDefault;
    TagNotEmpty(f.tag, WireType(f.l));
  }

  lemma NothingOrDefault(lay: Layout, f: Field, m: Message)
    ensures ReadsAsDefault(lay, f, m) <==>
      if f.h.Repeated? && !f.h.counted then f.tag in m && m[f.tag].List? && ReadsAsCountZero(lay, f, m, m[f.tag].vs)
      else EncField(lay, f, m) == Some([])
  {
    hide EncTag, EncValue, WithLength, ReadsAsCountZero, AllReadAsDefault, EncPacked;
    TagNotEmpty(f.tag, WireType(f.l));
    if f.h.Repeated? && f.h.counted && f.tag in m && m[f.tag].List? && m[f.tag].vs != [] {
      ArrayNotEmpty(lay, f, m[f.tag].vs);
    }
  }

  lemma ArrayNotEmpty(lay: Layout, f: Field, vs: seq<Value>)
    requires f.h.Repeated? && vs != []
    ensures EncArray(lay, f, vs) != Some([])
  {
    hide EncTag, EncValue, WithLength, EncPacked;
    TagNotEmpty(f.tag, WireType(f.l));
    TagNotEmpty(f.tag, WT_STRING);
    if EncArray(lay, f, vs).Some? && !Packable(f.l) {
      assert EncItems(lay, f, vs).value[..|EncTagFor(f)|] == EncTagFor(f);
    }
  }

  // ---- What stands for a count ----

  /** An array of unsigned integers in memory, least significant bytes first. */
  function Image(size: nat, ns: seq<nat>): (s: seq<byte>)
    ensures |s| == size * |ns|
  {
    if ns == [] then [] else EncFixed(ns[0], size) + Image(size, ns[1..])
  }

  lemma ImageParts(size: nat, ns: seq<nat>)
    requires ns != []
    ensures |Image(size, ns)| >= size
    ensures Image(size, ns)[..size] == EncFixed(ns[0], size) && Image(size, ns)[size..] == Image(size, ns[1..])
  {
    hide EncFixed;
  }

  lemma FirstByte(v: nat, size: nat)
    requires size > 0
    ensures EncFixed(v, size) == [v % 256] + EncFixed(v / 256, size - 1)
  {
  }

  /** Which numbers have zeros for their first bytes. */
  lemma ZeroByte(v: nat, size: nat)
    requires size > 0
    ensures EncFixed(v, size)[0] == 0 <==> v % 0x100 == 0
    ensures EncFixed(v, size)[1..] == EncFixed(v / 0x100, size - 1)
  {
  }

  lemma Second(v: nat)
    ensures v % 0x1_0000 == 0 <==> v % 0x100 == 0 && v / 0x100 % 0x100 == 0
  {
  }

  lemma Third(v: nat)
    ensures v % 0x100_0000 == 0 <==> v % 0x100 == 0 && v / 0x100 % 0x1_0000 == 0
  {
  }

  lemma Fourth(v: nat)
    ensures v % 0x1_0000_0000 == 0 <==> v % 0x100 == 0 && v / 0x100 % 0x100_0000 == 0
  {
  }

  lemma ZeroPair(v: nat, size: nat)
    requires size >= 2
    ensures EncFixed(v, size)[0] == EncFixed(v, size)[1] == 0 <==> v % 0x1_0000 == 0
  {
    hide EncFixed;
    ZeroByte(v, size);
    ZeroByte(v / 0x100, size - 1);
    Second(v);
    assert EncFixed(v, size)[1] == EncFixed(v, size)[1..][0];
  }

  lemma ZeroWord(v: nat, size: nat)
    requires size >= 4
    ensures (forall k | 0 <= k < 4 :: EncFixed(v, size)[k] == 0) <==> v % 0x1_0000_0000 == 0
  {
    hide EncFixed;
    var b := EncFixed(v, size);
    ZeroByte(v, size);
    ZeroByte(v / 0x100, size - 1);
    ZeroPair(v / 0x100 / 0x100, size - 2);
    Third(v / 0x100);
    Fourth(v);
    assert b[1] == b[1..][0] && b[2] == b[1..][1..][0] && b[3] == b[1..][1..][1];
  }

  /** A fixed-count array of unsigned integers passes for empty exactly if the first four bytes it has in memory
      are zero. */
  lemma CountIsFirstBytes(lay: Layout, f: Field, m: Message, vs: seq<Value>, ns: seq<nat>)
    requires f.l.UVarint? && WfType(f.l) && |vs| == |ns| && |ns| * f.l.size >= 4
    requires forall k | 0 <= k < |vs| :: vs[k] == Num(ns[k]) && WfValue(f.l, vs[k])
    ensures ReadsAsCountZero(lay, f, m, vs) <==> Image(f.l.size, ns)[..4] == [0, 0, 0, 0]
  {
    hide EncFixed, Image, ReadsAsCountZero, WfValue;
    assert forall k | 0 <= k < |vs| :: 0 <= ns[k] < Bound(f.l.size) by {
      forall k | 0 <= k < |vs|
        ensures 0 <= ns[k] < Bound(f.l.size)
      {
        InRange(f.l, vs[k]);
      }
    }
    if f.l.size == 1 {
      CountOfBytes(lay, f, m, vs);
      ImageOfBytes(ns);
    } else if f.l.size == 2 {
      CountOfPairs(lay, f, m, vs);
      ImageOfPairs(ns);
    } else {
      CountOfWord(lay, f, m, vs);
      ImageOfWord(f.l.size, ns);
    }
  }

  lemma InRange(l: LType, v: Value)
    requires l.UVarint? && IntegerSize(l.size) && WfValue(l, v)
    ensures v.Num? && 0 <= v.n < Bound(l.size)
  {
  }

  function Bound(size: nat): nat {
    if size == 1 then 0x100 else if size == 2 then 0x1_0000 else if size == 4 then 0x1_0000_0000 else TWO_64
  }

  lemma {:induction false} ImageOfByte(ns: seq<nat>, k: nat)
    requires k < |ns| && ns[k] < 0x100
    ensures |Image(1, ns)| == |ns| && (Image(1, ns)[k] == 0 <==> ns[k] == 0)
    decreases k
  {
    hide EncFixed, Image;
    ImageParts(1, ns);
    if k == 0 {
      ZeroByte(ns[0], 1);
    } else {
      ImageOfByte(ns[1..], k - 1);
      assert Image(1, ns)[k] == Image(1, ns)[1..][k - 1];
    }
  }

  lemma ImageOfBytes(ns: seq<nat>)
    requires |ns| >= 4 && ns[0] < 0x100 && ns[1] < 0x100 && ns[2] < 0x100 && ns[3] < 0x100
    ensures |Image(1, ns)| >= 4
    ensures Image(1, ns)[..4] == [0, 0, 0, 0] <==> ns[0] == ns[1] == ns[2] == ns[3] == 0
  {
    hide Image;
    ImageOfByte(ns, 0);
    ImageOfByte(ns, 1);
    ImageOfByte(ns, 2);
    ImageOfByte(ns, 3);
    assert Image(1, ns)[..4] == [Image(1, ns)[0], Image(1, ns)[1], Image(1, ns)[2], Image(1, ns)[3]];
  }

  lemma ImageOfPairs(ns: seq<nat>)
    requires |ns| >= 2 && ns[0] < 0x1_0000 && ns[1] < 0x1_0000
    ensures |Image(2, ns)| >= 4
    ensures Image(2, ns)[..4] == [0, 0, 0, 0] <==> ns[0] == ns[1] == 0
  {
    hide EncFixed, Image;
    var b := Image(2, ns);
    ImageParts(2, ns);
    ImageParts(2, ns[1..]);
    ZeroPair(ns[0], 2);
    ZeroPair(ns[1], 2);
    assert b[..4] == b[..2] + b[2..][..2];
    assert b[2..][..2] == EncFixed(ns[1], 2);
  }

  lemma ImageOfWord(size: nat, ns: seq<nat>)
    requires size >= 4 && ns != []
    ensures |Image(size, ns)| >= 4
    ensures Image(size, ns)[..4] == [0, 0, 0, 0] <==> ns[0] % 0x1_0000_0000 == 0
  {
    hide EncFixed, Image;
    var b := Image(size, ns);
    ImageParts(size, ns);
    ZeroWord(ns[0], size);
    assert forall k | 0 <= k < 4 :: b[k] == b[..size][k];
    assert b[..4] == [b[0], b[1], b[2], b[3]];
  }

  lemma CountOfBytes(lay: Layout, f: Field, m: Message, vs: seq<Value>)
    requires f.l == UVarint(1) && |vs| >= 4
    ensures ReadsAsCountZero(lay, f, m, vs) <==> vs[0] == vs[1] == vs[2] == vs[3] == Num(0)
  {
    assert forall k: nat :: k * 1 == k;
  }

  lemma CountOfPairs(lay: Layout, f: Field, m: Message, vs: seq<Value>)
    requires f.l == UVarint(2) && |vs| >= 2
    ensures ReadsAsCountZero(lay, f, m, vs) <==> vs[0] == vs[1] == Num(0)
  {
  }

  lemma CountOfWord(lay: Layout, f: Field, m: Message, vs: seq<Value>)
    requires f.l.UVarint? && f.l.size >= 4 && vs != []
    ensures |vs| * f.l.size >= 4 ==>
      (ReadsAsCountZero(lay, f, m, vs) <==>
        vs[0].Num? && if f.l.size == 4 then vs[0].n == 0 else vs[0].n % 0x1_0000_0000 == 0)
  {
    assert forall k: nat :: k > 0 ==> k * f.l.size >= 4;
  }
}
