/** Arrays of numbers as any peer may send them: element by element, packed, in several pieces, and in any
    mixture of these. */
module PbRepeated {
  import opened Common
  import opened PbWire
  import opened PbSchema
  import opened PbCodec
  import opened PbRoundTrip

  /** One element under a tag of its own, or a packed run of them. */
  datatype Chunk = Single(v: Value) | Packed(vs: seq<Value>)

  function Elems(c: Chunk): seq<Value> {
    if c.Single? then [c.v] else c.vs
  }

  function AllElems(chunks: seq<Chunk>): seq<Value> {
    if chunks == [] then [] else Elems(chunks[0]) + AllElems(chunks[1..])
  }

  predicate Numbers(f: Field) {
    WfField(f) && f.h.Repeated? && Packable(f.l)
  }

  predicate WfChunk(f: Field, c: Chunk) {
    && (forall k | 0 <= k < |Elems(c)| :: WfValue(f.l, Elems(c)[k]))
    && EncPacked(f.l, Elems(c)).Some? && |EncPacked(f.l, Elems(c)).value| < 0x1_0000_0000
  }

  /** A tag and the number, or a tag, the length, and the numbers. */
  function ChunkBytes(f: Field, c: Chunk): seq<byte>
    requires WfChunk(f, c)
  {
    EncTag(f.tag, ChunkType(f, c)) + Payload(f, c)
  }

  function ChunkType(f: Field, c: Chunk): (w: nat)
    ensures w < 8
  {
    if c.Single? then WireType(f.l) else WT_STRING
  }

  function Payload(f: Field, c: Chunk): seq<byte>
    requires WfChunk(f, c)
  {
    if c.Single? then EncPacked(f.l, [c.v]).value else WithLength(EncPacked(f.l, c.vs).value)
  }

  function Bytes(f: Field, chunks: seq<Chunk>): seq<byte>
    requires forall k | 0 <= k < |chunks| :: WfChunk(f, chunks[k])
  {
    if chunks == [] then [] else ChunkBytes(f, chunks[0]) + Bytes(f, chunks[1..])
  }

  lemma {:induction false} PackedOverflows(l: LType, vs: seq<Value>, before: seq<Value>, max: nat)
    requires Packable(l) && EncPacked(l, vs).Some? && |before| <= max < |before| + |vs|
    requires forall i | 0 <= i < |vs| :: WfValue(l, vs[i])
    ensures DecPacked(l, EncPacked(l, vs).value, before, max) == None
    decreases |vs|
  {
    hide EncScalar, DecScalar, WfValue;
    if |before| < max {
      ScalarDecodes(l, vs[0], EncPacked(l, vs[1..]).value);
      PackedOverflows(l, vs[1..], before + [vs[0]], max);
    }
  }

  lemma OnePacked(l: LType, v: Value)
    requires EncPacked(l, [v]).Some?
    ensures EncScalar(l, v) == EncPacked(l, [v])
  {
    hide EncScalar;
    assert [v][1..] == [];
    assert EncPacked(l, []) == Some([]);
    assert EncScalar(l, v).value + [] == EncScalar(l, v).value;
  }

  /** The field of `d` is being received, and has room. */
  predicate Receiving(d: Desc, f: Field, st: Loop) {
    && Has(d, f.tag) && FieldOf(d, f.tag) == f && Numbers(f)
    && (f.h.counted || st.fixed == Some(f.tag)) && |Elements(st.m, f.tag)| <= f.h.arraySize
  }

  function With(f: Field, st: Loop, vs: seq<Value>): Loop {
    st.(m := st.m[f.tag := List(Elements(st.m, f.tag) + vs)])
  }

  lemma PayloadRead(mem: Memory, d: Desc, f: Field, c: Chunk, st: Loop, rest: seq<byte>)
    requires Receiving(d, f, st) && WfChunk(f, c)
    ensures DecField(mem, d, f, ChunkType(f, c), Payload(f, c) + rest, st) ==
        if |Elements(st.m, f.tag)| + |Elems(c)| > f.h.arraySize then None else Some(Got(With(f, st, Elems(c)), rest))
  {
    hide EncScalar, DecScalar, EncPacked, DecPacked, DecString, WithLength, WfValue, WfType;
    var vs := Elements(st.m, f.tag);
    if c.Single? {
      OnePacked(f.l, c.v);
      assert Elems(c)[0] == c.v;
      ScalarDecodes(f.l, c.v, rest);
    } else {
      StringDecodes(EncPacked(f.l, c.vs).value, rest);
      if |vs| + |c.vs| > f.h.arraySize {
        PackedOverflows(f.l, c.vs, vs, f.h.arraySize);
      } else {
        PackedDecodes(f.l, c.vs, vs, f.h.arraySize);
      }
    }
  }

  lemma ChunkRead(mem: Memory, d: Desc, f: Field, c: Chunk, st: Loop, rest: seq<byte>)
    requires Receiving(d, f, st) && WfChunk(f, c)
    ensures DecLoop(mem, d, ChunkBytes(f, c) + rest, st) ==
      if |Elements(st.m, f.tag)| + |Elems(c)| > f.h.arraySize then None else DecLoop(mem, d, rest, With(f, st, Elems(c)))
  {
    hide DecField, EncPacked, WithLength, EncTag, DecLoop, WfChunk, Elems, With, Payload;
    assert ChunkBytes(f, c) + rest == EncTag(f.tag, ChunkType(f, c)) + (Payload(f, c) + rest);
    KnownTag(mem, d, f.tag, ChunkType(f, c), Payload(f, c) + rest, st);
    PayloadRead(mem, d, f, c, st, rest);
  }

  /** What the loop makes of all the pieces, with whatever ends the message behind them. */
  lemma {:induction false} ChunksRead(mem: Memory, d: Desc, f: Field, chunks: seq<Chunk>, st: Loop, tail: seq<byte>)
    requires Receiving(d, f, st) && (forall k | 0 <= k < |chunks| :: WfChunk(f, chunks[k])) && EndsHere(tail)
    ensures DecLoop(mem, d, Bytes(f, chunks) + tail, st) ==
      if |Elements(st.m, f.tag)| + |AllElems(chunks)| > f.h.arraySize then None
      else Some(Got(if chunks == [] then st else With(f, st, AllElems(chunks)), Behind(tail)))
    decreases |chunks|
  {
    hide DecLoop, WfChunk, Elems, ChunkBytes;
    if chunks == [] {
      assert [] + tail == tail;
      MessageEnds(mem, d, st, tail);
    } else {
      var next := With(f, st, Elems(chunks[0]));
      ChunkRead(mem, d, f, chunks[0], st, Bytes(f, chunks[1..]) + tail);
      assert Bytes(f, chunks) + tail == ChunkBytes(f, chunks[0]) + (Bytes(f, chunks[1..]) + tail);
      if |Elements(st.m, f.tag)| + |Elems(chunks[0])| <= f.h.arraySize {
        ChunksRead(mem, d, f, chunks[1..], next, tail);
        Joined(f, st, Elems(chunks[0]), AllElems(chunks[1..]));
        if chunks[1..] == [] {
          assert AllElems(chunks) == Elems(chunks[0]) + [] == Elems(chunks[0]);
        }
      }
    }
  }

  lemma Joined(f: Field, st: Loop, vs: seq<Value>, more: seq<Value>)
    ensures With(f, With(f, st, vs), more) == With(f, st, vs + more)
    ensures Elements(With(f, st, vs).m, f.tag) == Elements(st.m, f.tag) + vs
  {
    assert Elements(st.m, f.tag) + vs + more == Elements(st.m, f.tag) + (vs + more);
  }

  lemma MessageEnds(mem: Memory, d: Desc, st: Loop, tail: seq<byte>)
    requires EndsHere(tail)
    ensures DecLoop(mem, d, tail, st) == Some(Got(st, Behind(tail)))
  {
  }

  /** The first piece starts the array: from any state it reads as from one that is receiving already. */
  lemma Starts(mem: Memory, d: Desc, f: Field, c: Chunk, st: Loop, rest: seq<byte>)
    requires Has(d, f.tag) && FieldOf(d, f.tag) == f && Numbers(f) && WfChunk(f, c) && EnterFixed(d, f, st).Some?
    ensures var entered := EnterFixed(d, f, st).value;
      DecLoop(mem, d, ChunkBytes(f, c) + rest, st) == DecLoop(mem, d, ChunkBytes(f, c) + rest, entered)
  {
    hide DecField, EncPacked, EncTag, DecLoop, WfChunk, Payload, DecTag;
    var entered := EnterFixed(d, f, st).value;
    assert ChunkBytes(f, c) + rest == EncTag(f.tag, ChunkType(f, c)) + (Payload(f, c) + rest);
    KnownTag(mem, d, f.tag, ChunkType(f, c), Payload(f, c) + rest, st);
    KnownTag(mem, d, f.tag, ChunkType(f, c), Payload(f, c) + rest, entered);
  }

  /** A message of one array of numbers, in pieces of any kind: exactly the elements in the order they came,
      if there are no more of them than the array holds, and not fewer in an array of fixed count; and an
      error otherwise, or if the schema has required fields. */
  lemma PiecesDecode(mem: Memory, d: Desc, i: nat, chunks: seq<Chunk>, tail: seq<byte>)
    requires WfDesc(d) && i < |d.fields| && Numbers(d.fields[i]) && chunks != [] && EndsHere(tail)
    requires forall k | 0 <= k < |chunks| :: WfChunk(d.fields[i], chunks[k])
    ensures var f, vs := d.fields[i], AllElems(chunks);
      Decode(mem, d, Bytes(f, chunks) + tail) ==
        if |vs| <= f.h.arraySize && (f.h.counted || |vs| == f.h.arraySize) && (forall j | 0 <= j < |d.fields| :: d.fields[j].h != Required)
        then Some(Got(Defaults(mem, d)[f.tag := List(vs)], Behind(tail)))
        else None
  {
    hide DecLoop, WfChunk, AllElems, ChunkBytes, Defaults, InitialValue, Finished, RequiredBefore;
    var f := d.fields[i];
    var start := Loop(Defaults(mem, d), None, {});
    FieldOfIndex(d, i);
    StartsEmpty(mem, d, f);
    var entered := EnterFixed(d, f, start).value;
    assert Bytes(f, chunks) + tail == ChunkBytes(f, chunks[0]) + (Bytes(f, chunks[1..]) + tail);
    Starts(mem, d, f, chunks[0], start, Bytes(f, chunks[1..]) + tail);
    ChunksRead(mem, d, f, chunks, entered, tail);
    RequiredCount(d, |d.fields|);
    assert [] + AllElems(chunks) == AllElems(chunks);
    FinishedWhen(d, f, With(f, entered, AllElems(chunks)));
    assert With(f, entered, AllElems(chunks)).m == Defaults(mem, d)[f.tag := List(AllElems(chunks))];
  }

  lemma FinishedWhen(d: Desc, f: Field, st: Loop)
    requires Has(d, f.tag) && FieldOf(d, f.tag) == f && f.h.Repeated?
    requires st.seen == {} && st.fixed == if f.h.counted then None else Some(f.tag)
    ensures Finished(d, st) <==>
      (f.h.counted || |Elements(st.m, f.tag)| == f.h.arraySize) && RequiredBefore(d, |d.fields|) == 0
  {
    hide RequiredBefore;
    if RequiredBefore(d, |d.fields|) > 0 {
      assert 0 !in st.seen;
    }
  }

  /** An array with a count starts empty. */
  lemma StartsEmpty(mem: Memory, d: Desc, f: Field)
    requires Has(d, f.tag) && FieldOf(d, f.tag) == f && f.h.Repeated?
    ensures f.h.counted ==> Elements(Defaults(mem, d), f.tag) == []
  {
    HasIsTag(d, f.tag);
  }

  lemma {:induction false} RequiredCount(d: Desc, i: nat)
    requires i <= |d.fields|
    ensures RequiredBefore(d, i) == 0 <==> forall j | 0 <= j < i :: d.fields[j].h != Required
  {
    if i > 0 {
      RequiredCount(d, i - 1);
    }
  }
}
