/** What is on the wire, byte by byte and in numbers: the encoding document of Protocol Buffers, which any
    other implementation follows as well. */
module PbBytes {
  import opened Common
  import opened PbWire
  import opened PbSchema
  import opened PbCodec
  import opened PbRoundTrip

  // ---- Numbers ----

  /** Byte `i` of a varint is its group of seven bits, with the top bit on all bytes but the last. */
  lemma {:induction false} VarintByte(v: nat, i: nat)
    requires i < |EncVarint(v)|
    ensures EncVarint(v)[i] as nat == v / Pow128(i) % 128 + if i + 1 < |EncVarint(v)| then 128 else 0
    ensures i + 1 == |EncVarint(v)| ==> v < Pow128(i + 1) && (v >= Pow128(i) || v == i == 0)
    decreases i
  {
    if i == 0 {
      assert Pow128(1) == 128 * Pow128(0) == 128;
    } else {
      VarintByte(v / 128, i - 1);
      DividedTwice(v, 128, Pow128(i - 1));
      assert EncVarint(v)[i] == EncVarint(v / 128)[i - 1];
    }
  }

  /** Byte `i` of a fixed-width number, least significant first. */
  lemma {:induction false} FixedByte(v: nat, width: nat, i: nat)
    requires i < width
    ensures EncFixed(v, width)[i] as nat == v / Pow256(i) % 256
    decreases i
  {
    if i > 0 {
      FixedByte(v / 256, width - 1, i - 1);
      DividedTwice(v, 256, Pow256(i - 1));
    } else {
      assert Pow256(0) == 1;
    }
  }

  lemma DividedTwice(v: nat, p: nat, q: nat)
    requires p > 0 && q > 0
    ensures p * q > 0 && v / p / q == v / (p * q)
    ensures v < p * q <==> v / p < q
  {
    var a := v / p;
    Parts(v, p, q, a, v % p, a / q, a % q);
    Product(p, q);
    Quotient(v, p * q, a / q, p * (a % q) + v % p);
  }

  lemma Parts(v: nat, p: nat, q: nat, a: nat, r: nat, b: nat, t: nat)
    requires v == p * a + r && r < p && a == q * b + t && t < q
    ensures v == p * q * b + (p * t + r) && p * t + r < p * q
    ensures v < p * q <==> a < q
  {
    Expand(p, q, b, t);
    Distribute(p, q, t);
    Product(p, q - t);
    if a >= q {
      Distribute(p, a, q);
    } else {
      Distribute(p, q, a);
      Product(p, q - a);
    }
  }

  lemma Product(p: nat, q: nat)
    requires q > 0
    ensures p * q >= p
  {
  }

  lemma Expand(p: nat, q: nat, b: nat, t: nat)
    ensures p * (q * b + t) == p * q * b + p * t
  {
  }

  lemma Distribute(p: nat, q: nat, t: nat)
    requires t <= q
    ensures p * q == p * t + p * (q - t)
  {
  }

  lemma Quotient(v: nat, m: nat, b: nat, rest: nat)
    requires m > 0 && rest < m && v == m * b + rest
    ensures v / m == b
  {
    OnlyWay(m, v / m, v % m, b, rest);
  }

  /** Quotient and remainder are unique. */
  lemma OnlyWay(m: nat, a: int, r: nat, b: int, t: nat)
    requires r < m && t < m && m * a + r == m * b + t
    ensures a == b && r == t
  {
    if a < b {
      Difference(m, b, a);
      Product(m, b - a);
    } else if b < a {
      Difference(m, a, b);
      Product(m, a - b);
    }
  }

  lemma Difference(m: int, a: int, b: int)
    ensures m * a - m * b == m * (a - b)
  {
  }

  /** A varint may be padded to ten bytes, counts modulo 2^64, and is an error if it is longer or has no end. */
  lemma {:induction false} VarintLimits(s: seq<byte>, n: nat, rest: seq<byte>)
    requires |s| == n && forall i | 0 <= i < n :: s[i] >= 128 <==> i + 1 < n
    ensures n > 0 ==> Dec64(s + rest) == if n > 10 then None else Some(Got(VarintValue(s) % 0x1_0000_0000_0000_0000, rest))
    ensures n > 1 ==> Dec64(s[..n - 1]) == None
  {
    LengthIs(s, rest);
    if n > 0 {
      assert (s + rest)[..n] == s && (s + rest)[n..] == rest;
    }
    if n > 1 {
      NoEnd(s[..n - 1]);
    }
  }

  lemma {:induction false} LengthIs(s: seq<byte>, rest: seq<byte>)
    requires forall i | 0 <= i < |s| :: s[i] >= 128 <==> i + 1 < |s|
    ensures s != [] ==> VarintLength(s + rest) == Some(|s|)
  {
    if |s| > 1 {
      LengthIs(s[1..], rest);
      assert (s + rest)[1..] == s[1..] + rest;
    }
  }

  lemma {:induction false} NoEnd(s: seq<byte>)
    requires forall i | 0 <= i < |s| :: s[i] >= 128
    ensures VarintLength(s) == None
  {
    if s != [] {
      NoEnd(s[1..]);
    }
  }

  // ---- Tags ----

  /** The wire types: 0 for varints, 1 for eight bytes, 2 for whatever has a length, 5 for four bytes. */
  lemma TagNumber(f: Field)
    ensures EncTagFor(f) == EncVarint(VarintValue(EncTagFor(f)))
    ensures VarintValue(EncTagFor(f)) == 8 * f.tag +
      match f.l
      case Varint(_) => 0
      case UVarint(_) => 0
      case SVarint(_) => 0
      case Fixed64 => 1
      case Bytes(_) => 2
      case Str(_) => 2
      case FixedBytes(_) => 2
      case Submessage(_) => 2
      case Fixed32 => 5
  {
    EncVarintShape(8 * f.tag + WireType(f.l), []);
  }

  /** A packed array has the wire type of whatever has a length, and one tag for all its elements. */
  lemma PackedBytes(lay: Layout, f: Field, vs: seq<Value>)
    requires f.h.Repeated? && Packable(f.l) && 0 < |vs| <= f.h.arraySize && EncPacked(f.l, vs).Some?
    ensures var b := EncPacked(f.l, vs).value;
      EncArray(lay, f, vs) == Some(EncVarint(8 * f.tag + 2) + (EncVarint(|b|) + b))
  {
  }

  // ---- Scalars ----

  /** What number a varint stands for in a field of this type (the encoding document's "int32 and int64",
      "uint32 and uint64" and "sint32 and sint64"): `n` bytes of a C integer hold it. */
  predicate Means(l: LType, v: nat, x: int)
    requires l.Varint? || l.UVarint? || l.SVarint?
  {
    var half := Pow256(l.size) / 2;
    match l
    case UVarint(n) => x == v && x < Pow256(n)
    case Varint(n) =>
      && -half <= x < half
      // Up to four bytes the upper half of the varint is ignored.
      && (x - v) % Pow256(if n == 8 then 8 else 4) == 0
    case SVarint(n) => -half <= x < half && v == if x >= 0 then 2 * x else -2 * x - 1
  }

  lemma Sizes()
    ensures Pow256(1) == 0x100 && Pow256(2) == 0x1_0000 && Pow256(4) == 0x1_0000_0000 && Pow256(8) == 0x1_0000_0000_0000_0000
  {
    assert Pow256(4) == 256 * (256 * Pow256(2));
    assert Pow256(8) == 256 * (256 * (256 * (256 * Pow256(4))));
  }

  /** A number is written as the one 64-bit varint that means it. */
  lemma ScalarMeans(l: LType, x: int)
    requires (l.Varint? || l.UVarint? || l.SVarint?) && WfType(l) && WfValue(l, Num(x))
    ensures EncScalar(l, Num(x)).Some?
    ensures var b := EncScalar(l, Num(x)).value;
      b == EncVarint(VarintValue(b)) && Means(l, VarintValue(b), x) && VarintValue(b) < 0x1_0000_0000_0000_0000
      && (l.Varint? ==> (VarintValue(b) - x) % 0x1_0000_0000_0000_0000 == 0)
  {
    hide EncVarint, VarintValue, Pow256;
    Sizes();
    var v := match l
      case Varint(_) => Unsigned(x)
      case UVarint(_) => x
      case SVarint(_) => ZigZag(x);
    EncVarintShape(v, []);
  }

  /** A varint is read as the number it means, and fails exactly if it means none. */
  lemma ScalarReads(l: LType, v: nat, rest: seq<byte>)
    requires (l.Varint? || l.UVarint? || l.SVarint?) && WfType(l) && v < 0x1_0000_0000_0000_0000
    ensures var r := DecScalar(l, EncVarint(v) + rest);
      forall x :: r == Some(Got(Num(x), rest)) <==> Means(l, v, x)
    ensures DecScalar(l, EncVarint(v) + rest).None? <==> forall x :: !Means(l, v, x)
  {
    hide EncVarint, Pow256, Dec64, Means;
    Dec64Encoded(v, rest);
    var r := DecScalar(l, EncVarint(v) + rest);
    forall x
      ensures r == Some(Got(Num(x), rest)) <==> Means(l, v, x)
    {
      NumberRead(l, v, rest, x);
    }
    if r.Some? {
      assert Means(l, v, r.value.value.n);
    }
  }

  lemma NumberRead(l: LType, v: nat, rest: seq<byte>, x: int)
    requires (l.Varint? || l.UVarint? || l.SVarint?) && WfType(l) && v < 0x1_0000_0000_0000_0000
    requires Dec64(EncVarint(v) + rest) == Some(Got(v, rest))
    ensures DecScalar(l, EncVarint(v) + rest) == Some(Got(Num(x), rest)) <==> Means(l, v, x)
  {
    hide EncVarint, Pow256, Dec64;
    Sizes();
    match l
    case Varint(n) => OneResidue(v, if n == 8 then TWO_63 else 0x8000_0000, x);
    case _ =>
  }

  /** Two's complement: the one number in the range that is congruent. */
  lemma OneResidue(v: nat, half: int, x: int)
    requires half > 0
    ensures -half <= Signed(v, half) < half
    ensures -half <= x < half ==> (Signed(v, half) == x <==> (x - v) % (2 * half) == 0)
  {
    var m: nat := 2 * half;
    if -half <= x < half {
      Residue(half, m, v / m, v % m, (x - v) / m, (x - v) % m, v, x);
    }
  }

  lemma Residue(half: int, m: nat, q: int, k: nat, c: int, e: nat, v: int, x: int)
    requires m == 2 * half && -half <= x < half && k < m && e < m && v == m * q + k && x - v == m * c + e
    ensures x == (if k < half then k else k - m) <==> e == 0
  {
    if e == 0 {
      var one := if x < 0 then 1 else 0;
      Split(m, c, q);
      Split(m, c + q, one);
      OnlyWay(m, c + q + one, k, 0, if x < 0 then x + m else x);
    } else {
      var j := if k < half then 0 else -1;
      Split(m, -q, j);
      Split(m, q, -q);
      if x == m * j + k {
        OnlyWay(m, -q + j, 0, c, e);
      }
    }
  }

  lemma Split(m: int, a: int, b: int)
    ensures m * (a + b) == m * a + m * b && m * 0 == 0 && m * 1 == m && m * -1 == -m
  {
  }

  // ---- Skipping ----

  /** A field the reader does not know, in numbers: its tag, and then what the wire type says. */
  lemma UnknownField(mem: Memory, d: Desc, tag: nat, wireType: nat, payload: seq<byte>, rest: seq<byte>, st: Loop)
    requires 0 < tag < 0x2000_0000 && !Has(d, tag) && (d.fields != [] || tag != 0)
    requires
      || (wireType == 0 && payload == EncVarint(VarintValue(payload)))
      || (wireType == 1 && |payload| == 8)
      || (wireType == 2 && exists n | 0 <= n <= |payload| :: payload[..n] == EncVarint(|payload| - n) && |payload| - n < 0x1_0000_0000)
      || (wireType == 5 && |payload| == 4)
    ensures DecLoop(mem, d, EncVarint(8 * tag + wireType) + payload + rest, st) == DecLoop(mem, d, rest, st)
  {
    hide EncVarint, VarintValue, SkipField, DecTag;
    PayloadSkipped(wireType, payload, rest);
    DecTagEncoded(tag, wireType, payload + rest);
    TagNotEmpty(tag, wireType);
    assert EncTag(tag, wireType) + payload + rest == EncTag(tag, wireType) + (payload + rest);
  }

  lemma PayloadSkipped(wireType: nat, payload: seq<byte>, rest: seq<byte>)
    requires
      || (wireType == 0 && payload == EncVarint(VarintValue(payload)))
      || (wireType == 1 && |payload| == 8)
      || (wireType == 2 && exists n | 0 <= n <= |payload| :: payload[..n] == EncVarint(|payload| - n) && |payload| - n < 0x1_0000_0000)
      || (wireType == 5 && |payload| == 4)
    ensures SkipField(wireType, payload + rest) == Some(rest)
  {
    hide EncVarint, VarintValue, DecString, SkipVarint;
    if wireType == 0 {
      VarintSkips(VarintValue(payload), rest);
    } else if wireType == 2 {
      var n :| 0 <= n <= |payload| && payload[..n] == EncVarint(|payload| - n) && |payload| - n < 0x1_0000_0000;
      StringDecodes(payload[n..], rest);
      assert payload == WithLength(payload[n..]);
    } else {
      assert (payload + rest)[|payload|..] == rest;
    }
  }

  /** The other wire types, and payloads cut short, are errors. */
  lemma NotSkipped(wireType: nat, s: seq<byte>)
    requires wireType !in {0, 1, 2, 5} || (wireType == 1 && |s| < 8) || (wireType == 5 && |s| < 4) || s == []
    ensures SkipField(wireType, s) == None
  {
  }

  // ---- Bytes and strings ----

  /** What a run of bytes of this length becomes in a field of this type, if it has room. */
  predicate Becomes(l: LType, b: seq<byte>, r: seq<byte>)
    requires l.Bytes? || l.Str? || l.FixedBytes?
  {
    match l
    case Bytes(n) => |b| <= n && r == b
    // What comes behind a zero is not part of a C string.
    case Str(n) => |b| < n && r <= b && 0 !in r && (r == b || b[|r|] == 0)
    case FixedBytes(n) => if b == [] then |r| == n && forall k | 0 <= k < n :: r[k] == 0 else |b| == n && r == b
  }

  lemma BytesRead(mem: Memory, l: LType, b: seq<byte>, cur: Value, rest: seq<byte>)
    requires (l.Bytes? || l.Str? || l.FixedBytes?) && |b| < 0x1_0000_0000
    ensures var r := DecValue(mem, l, EncVarint(|b|) + b + rest, cur);
      && (forall x: seq<byte> :: r == Some(Got(Blob(x), rest)) <==> Becomes(l, b, x))
      && (r.None? <==> forall x: seq<byte> :: !Becomes(l, b, x))
  {
    hide DecString, EncVarint, Becomes;
    StringDecodes(b, rest);
    var r := DecValue(mem, l, EncVarint(|b|) + b + rest, cur);
    forall x: seq<byte>
      ensures r == Some(Got(Blob(x), rest)) <==> Becomes(l, b, x)
    {
      RunRead(mem, l, b, cur, rest, x);
    }
    assert r.Some? ==> r.value.value.Blob? && r.value.rest == rest;
    if r.Some? {
      assert Becomes(l, b, r.value.value.b);
    }
  }

  lemma RunRead(mem: Memory, l: LType, b: seq<byte>, cur: Value, rest: seq<byte>, x: seq<byte>)
    requires (l.Bytes? || l.Str? || l.FixedBytes?) && DecString(EncVarint(|b|) + b + rest) == Some(Got(b, rest))
    ensures DecValue(mem, l, EncVarint(|b|) + b + rest, cur) == Some(Got(Blob(x), rest)) <==> Becomes(l, b, x)
  {
    hide DecString, EncVarint, CString;
    CStringIs(b, x);
    if l.FixedBytes? && b == [] && Becomes(l, b, x) {
      assert x == seq(l.length, _ => 0);
    }
  }

  lemma {:induction false} CStringIs(b: seq<byte>, x: seq<byte>)
    ensures CString(b) == x <==> x <= b && 0 !in x && (x == b || b[|x|] == 0)
  {
    if b != [] && b[0] != 0 && x != [] && x[0] == b[0] {
      CStringIs(b[1..], x[1..]);
      assert x == [x[0]] + x[1..] && b == [b[0]] + b[1..];
      assert x <= b <==> x[1..] <= b[1..];
    }
  }

  // ---- A message of one required field ----

  lemma OneField(mem: Memory, f: Field, payload: seq<byte>)
    requires WfField(f) && f.h == Required && !f.l.Submessage?
    ensures var r := DecValue(mem, f.l, payload, f.initial);
      && (r.None? ==> Decode(mem, Desc([f]), EncTagFor(f) + payload) == None)
      && (r.Some? && r.value.rest == [] ==>
            Decode(mem, Desc([f]), EncTagFor(f) + payload) == Some(Got(map[f.tag := r.value.value], [])))
  {
    hide DecValue, EncTag, DecLoop, WireType, InitialValue;
    var d := Desc([f]);
    FieldOfIndex(d, 0);
    assert Tags(d) == {f.tag} && Defaults(mem, d) == map[f.tag := InitialValue(mem, f)];
    StartsInitial(mem, f);
    assert RequiredBefore(d, 0) == 0 && RequiredBefore(d, 1) == 1;
    KnownTag(mem, d, f.tag, WireType(f.l), payload, Loop(Defaults(mem, d), None, {}));
    NothingMore(mem, d);
    var v := DecValue(mem, f.l, payload, f.initial);
    if v.Some? && v.value.rest == [] {
      assert Finished(d, Loop(map[f.tag := v.value.value], None, {0}));
      assert map[f.tag := f.initial][f.tag := v.value.value] == map[f.tag := v.value.value];
    }
  }

  lemma StartsInitial(mem: Memory, f: Field)
    requires f.h == Required && !f.l.Submessage?
    ensures InitialValue(mem, f) == f.initial && Within(mem, f) == mem
  {
  }

  lemma NothingMore(mem: Memory, d: Desc)
    ensures forall st :: DecLoop(mem, d, [], st) == Some(Got(st, []))
  {
  }

  /** A message of one number, from the bytes up: read as what its varint means, or refused. */
  lemma NumberField(mem: Memory, f: Field, v: nat)
    requires WfField(f) && f.h == Required && (f.l.Varint? || f.l.UVarint? || f.l.SVarint?) && v < 0x1_0000_0000_0000_0000
    ensures var r := Decode(mem, Desc([f]), EncVarint(8 * f.tag) + EncVarint(v));
      && (forall x :: r == Some(Got(map[f.tag := Num(x)], [])) <==> Means(f.l, v, x))
      && (r.None? <==> forall x :: !Means(f.l, v, x))
  {
    hide DecValue, EncVarint, Decode, Means, DecScalar;
    ScalarReads(f.l, v, []);
    assert EncVarint(v) + [] == EncVarint(v);
    OneField(mem, f, EncVarint(v));
    ScalarValue(mem, f.l, EncVarint(v), f.initial);
    var r := DecScalar(f.l, EncVarint(v));
    if r.Some? {
      assert r == Some(Got(Num(r.value.value.n), r.value.rest));
    }
    assert forall x, y :: map[f.tag := Num(x)] == map[f.tag := Num(y)] ==> x == y by {
      forall x, y | map[f.tag := Num(x)] == map[f.tag := Num(y)]
        ensures x == y
      {
        assert map[f.tag := Num(x)][f.tag] == map[f.tag := Num(y)][f.tag];
      }
    }
  }

  lemma ScalarValue(mem: Memory, l: LType, s: seq<byte>, cur: Value)
    requires Packable(l)
    ensures DecValue(mem, l, s, cur) == DecScalar(l, s)
  {
  }

  /** And of one string or run of bytes. */
  lemma BytesField(mem: Memory, f: Field, b: seq<byte>)
    requires WfField(f) && f.h == Required && (f.l.Bytes? || f.l.Str? || f.l.FixedBytes?) && |b| < 0x1_0000_0000
    ensures var r := Decode(mem, Desc([f]), EncVarint(8 * f.tag + 2) + (EncVarint(|b|) + b));
      && (forall x: seq<byte> :: r == Some(Got(map[f.tag := Blob(x)], [])) <==> Becomes(f.l, b, x))
      && (r.None? <==> forall x: seq<byte> :: !Becomes(f.l, b, x))
  {
    hide DecValue, EncVarint, Decode, Becomes;
    BytesRead(mem, f.l, b, f.initial, []);
    assert EncVarint(|b|) + b + [] == EncVarint(|b|) + b;
    OneField(mem, f, EncVarint(|b|) + b);
    var r := DecValue(mem, f.l, EncVarint(|b|) + b, f.initial);
    if r.Some? {
      var x: seq<byte> :| Becomes(f.l, b, x);
      assert r == Some(Got(Blob(x), []));
    }
    assert forall x: seq<byte>, y: seq<byte> :: map[f.tag := Blob(x)] == map[f.tag := Blob(y)] ==> x == y by {
      forall x: seq<byte>, y: seq<byte> | map[f.tag := Blob(x)] == map[f.tag := Blob(y)]
        ensures x == y
      {
        assert map[f.tag := Blob(x)][f.tag] == map[f.tag := Blob(y)][f.tag];
      }
    }
  }
}
