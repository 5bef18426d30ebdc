/** The scalar layer of the Protocol Buffers wire format as nanopb implements it: base-128
    varints, ZigZag and little-endian fixed-width numbers. */
module PbWire {
  import opened Common

  const TWO_32 := 0x1_0000_0000
  const TWO_63 := 0x8000_0000_0000_0000
  const TWO_64 := 0x1_0000_0000_0000_0000

  datatype Got<+T> = Got(value: T, rest: seq<byte>)

  // ---- Varints ----

  function EncVarint(v: nat): (s: seq<byte>)
    ensures |s| > 0
  {
    if v < 128 then [v] else [v % 128 + 128] + EncVarint(v / 128)
  }

  /** The number a run of varint bytes spells, least significant group first. */
  function VarintValue(s: seq<byte>): nat {
    if s == [] then 0 else s[0] as nat % 128 + 128 * VarintValue(s[1..])
  }

  /** How many bytes the varint at the front of `s` takes; none if its last byte is missing. */
  function VarintLength(s: seq<byte>): (n: Option<nat>)
    ensures n.Some? ==> 0 < n.value <= |s|
  {
    if s == [] then None
    else if s[0] < 128 then Some(1)
    else
      var n := VarintLength(s[1..]);
      if n.None? then None else Some(n.value + 1)
  }

  /** pb_decode_varint: at most ten bytes, modulo 2^64. */
  function Dec64(s: seq<byte>): (r: Option<Got<nat>>)
    ensures r.Some? ==> |r.value.rest| < |s| && r.value.value < TWO_64
  {
    var n := VarintLength(s);
    if n.None? || n.value > 10 then None
    else Some(Got(VarintValue(s[..n.value]) % TWO_64, s[n.value..]))
  }

  function Pow128(k: nat): (p: nat)
    ensures p > 0
  {
    if k == 0 then 1 else 128 * Pow128(k - 1)
  }

  lemma {:induction false} EncVarintShape(v: nat, rest: seq<byte>)
    ensures VarintLength(EncVarint(v) + rest) == Some(|EncVarint(v)|)
    ensures VarintValue(EncVarint(v)) == v
  {
    if v >= 128 {
      EncVarintShape(v / 128, rest);
      assert (EncVarint(v) + rest)[1..] == EncVarint(v / 128) + rest;
      assert EncVarint(v)[1..] == EncVarint(v / 128);
    }
  }

  lemma {:induction false} EncVarintSize(v: nat, k: nat)
    requires v < Pow128(k) && k > 0
    ensures |EncVarint(v)| <= k
  {
    if v >= 128 {
      EncVarintSize(v / 128, k - 1);
    }
  }

  lemma EncVarintAtMostTen(v: nat)
    requires v < TWO_64
    ensures |EncVarint(v)| <= 10
  {
    assert Pow128(5) == 0x8_0000_0000;
    assert Pow128(10) == 128 * (128 * (128 * (128 * (128 * Pow128(5)))));
    EncVarintSize(v, 10);
  }

  /** The 64-bit decoder inverts the encoder on every 64-bit value, whatever follows. */
  lemma Dec64Encoded(v: nat, rest: seq<byte>)
    requires v < TWO_64
    ensures Dec64(EncVarint(v) + rest) == Some(Got(v, rest))
  {
    EncVarintShape(v, rest);
    EncVarintAtMostTen(v);
    var s, n := EncVarint(v) + rest, |EncVarint(v)|;
    assert s[..n] == EncVarint(v) && s[n..] == rest;
  }

  function Pow2(k: nat): (p: nat)
    ensures p > 0
  {
    if k == 0 then 1 else 2 * Pow2(k - 1)
  }

  /** The bitwise or of two naturals. */
  function Or(a: nat, b: nat): nat
    decreases a + b
  {
    if a == 0 then b else if b == 0 then a
    else (if a % 2 == 1 || b % 2 == 1 then 1 else 0) + 2 * Or(a / 2, b / 2)
  }

  lemma {:induction false} OrBound(a: nat, b: nat, k: nat)
    requires a < Pow2(k) && b < Pow2(k)
    ensures Or(a, b) < Pow2(k)
    decreases k
  {
    if a > 0 && b > 0 {
      OrBound(a / 2, b / 2, k - 1);
    }
  }

  /** Or-ing into zero bits adds. */
  lemma {:induction false} OrAdds(a: nat, x: nat, k: nat)
    requires a < Pow2(k)
    ensures Or(a, x * Pow2(k)) == a + x * Pow2(k)
    decreases k
  {
    if a > 0 && x > 0 {
      assert x * Pow2(k) == 2 * (x * Pow2(k - 1));
      OrAdds(a / 2, x, k - 1);
    }
  }

  /** A group of seven bits shifted into place in 32 bits, and or-ed in. */
  function Merge(result: nat, b: byte, bitpos: nat): (r: nat)
    requires result < TWO_32
    ensures r < TWO_32
  {
    MergeBound(result, b, bitpos);
    Or(result, b as nat % 128 * Pow2(bitpos) % TWO_32)
  }

  lemma MergeBound(result: nat, b: byte, bitpos: nat)
    requires result < TWO_32
    ensures Or(result, b as nat % 128 * Pow2(bitpos) % TWO_32) < TWO_32
  {
    Pow2Is();
    OrBound(result, b as nat % 128 * Pow2(bitpos) % TWO_32, 32);
  }

  lemma Pow2Is()
    ensures Pow2(32) == TWO_32
  {
    GroupPowers();
    assert Pow2(32) == 2 * (2 * (2 * (2 * Pow2(28))));
  }

  lemma {:induction false} Pow2Sum(j: nat, k: nat)
    ensures Pow2(j + k) == Pow2(j) * Pow2(k)
    decreases j
  {
    if j > 0 {
      Pow2Sum(j - 1, k);
    }
  }

  /** What is cut off above 32 bits does not reach the bits below. */
  lemma CutOff(result: nat, x: nat, p: nat, q: nat)
    requires p > 0 && q > 0 && result < p && p * q == TWO_32
    ensures x * p % TWO_32 == x % q * p && (result + x * p) % TWO_32 == result + x % q * p
  {
    assert x == x % q + q * (x / q);
    assert x * p == x % q * p + TWO_32 * (x / q) by {
      assert q * (x / q) * p == p * q * (x / q);
    }
    assert x % q * p + p <= q * p;
    var low, high := x % q * p, x / q;
    assert low < TWO_32 && result + low < TWO_32;
    Whole(low, high);
    Whole(result + low, high);
  }

  lemma Whole(low: nat, high: nat)
    requires low < TWO_32
    ensures (low + TWO_32 * high) % TWO_32 == low
  {
  }

  /** As long as the bits at `bitpos` and above are still zero. */
  lemma MergeAdds(result: nat, b: byte, bitpos: nat)
    requires bitpos < 32 && result < Pow2(bitpos) && result < TWO_32
    ensures Merge(result, b, bitpos) == (result + b as nat % 128 * Pow2(bitpos)) % TWO_32
  {
    hide Pow2, Or;
    var x, p, q := b as nat % 128, Pow2(bitpos), Pow2(32 - bitpos);
    Pow2Is();
    Pow2Sum(bitpos, 32 - bitpos);
    CutOff(result, x, p, q);
    OrAdds(result, x % q, bitpos);
  }

  /** The loop of pb_decode_varint32_eof after its first byte. Above bit 32 only padding is
      accepted: zero groups, or the sign extension of a negative int32. The bit position is an 8-bit
      field, which wraps around in a varint of more than 36 bytes. */
  function Dec32Tail(s: seq<byte>, result: nat, bitpos: nat): (r: Option<Got<nat>>)
    requires result < TWO_32 && bitpos < 0x100
    ensures r.Some? ==> |r.value.rest| < |s| && r.value.value < TWO_32
  {
    if s == [] then None
    else
      var b := s[0] as nat;
      if bitpos >= 32 && b % 128 != 0 && (result < 0x8000_0000 || b != if bitpos < 63 then 0xFF else 0x01) then None
      else
        var next := if bitpos >= 32 then result else Merge(result, s[0], bitpos);
        if b >= 128 then Dec32Tail(s[1..], next, (bitpos + 7) % 0x100)
        else if bitpos + 7 == 35 && b / 16 % 8 != 0 then None
        else Some(Got(next, s[1..]))
  }

  /** pb_decode_varint32. */
  function Dec32(s: seq<byte>): (r: Option<Got<nat>>)
    ensures r.Some? ==> |r.value.rest| < |s| && r.value.value < TWO_32
  {
    if s == [] then None
    else if s[0] < 128 then Some(Got(s[0] as nat, s[1..]))
    else Dec32Tail(s[1..], s[0] as nat - 128, 7)
  }

  lemma Distribute(a: nat, p: nat, v: nat)
    ensures 128 * (a + p * v) == 128 * a + (128 * p) * v
  {
  }

  lemma {:induction false} VarintValueAppend(s: seq<byte>, b: byte)
    ensures VarintValue(s + [b]) == VarintValue(s) + Pow128(|s|) * (b as nat % 128)
  {
    if s == [] {
      assert s + [b] == [b] && [b][1..] == [];
    } else {
      VarintValueAppend(s[1..], b);
      assert (s + [b])[1..] == s[1..] + [b];
      Distribute(VarintValue(s[1..]), Pow128(|s| - 1), b as nat % 128);
    }
  }

  lemma GroupPowers()
    ensures Pow2(7) == Pow128(1) == 0x80 && Pow2(14) == Pow128(2) == 0x4000
    ensures Pow2(21) == Pow128(3) == 0x20_0000 && Pow2(28) == Pow128(4) == 0x1000_0000
    ensures Pow128(5) == 8 * TWO_32
  {
    assert Pow2(7) == 2 * (2 * (2 * (2 * (2 * (2 * (2 * Pow2(0)))))));
    assert Pow2(14) == 2 * (2 * (2 * (2 * (2 * (2 * (2 * Pow2(7)))))));
    assert Pow2(21) == 2 * (2 * (2 * (2 * (2 * (2 * (2 * Pow2(14)))))));
    assert Pow2(28) == 2 * (2 * (2 * (2 * (2 * (2 * (2 * Pow2(21)))))));
  }

  lemma {:induction false} HighGroupsVanish(k: nat, a: nat, y: nat)
    requires k >= 5
    ensures (a + Pow128(k) * y) % TWO_32 == a % TWO_32
    decreases k
  {
    GroupPowers();
    if k > 5 {
      HighGroupsVanish(k - 1, a, 128 * y);
      assert Pow128(k) * y == Pow128(k - 1) * (128 * y);
    } else {
      assert Pow128(k) * y == TWO_32 * (8 * y);
    }
  }

  lemma GroupPower(k: nat)
    requires 1 <= k <= 4
    ensures Pow2(7 * k) == Pow128(k)
  {
    GroupPowers();
  }

  lemma GroupPowerBound(k: nat)
    requires 1 <= k <= 4
    ensures Pow128(k) <= TWO_32
  {
    GroupPowers();
  }

  lemma {:induction false} ValueBound(s: seq<byte>)
    ensures VarintValue(s) < Pow128(|s|)
  {
    if s != [] {
      ValueBound(s[1..]);
    }
  }

  lemma AddModulo(a: nat, x: nat)
    ensures (a % TWO_32 + x) % TWO_32 == (a + x) % TWO_32
  {
  }

  /** One more group read into the accumulator keeps it the value modulo 2^32. */
  lemma Accumulate(read: seq<byte>, b: byte, result: nat)
    requires |read| > 0 && result == VarintValue(read) % TWO_32
    ensures (if 7 * |read| >= 32 then result else Merge(result, b, 7 * |read|)) == VarintValue(read + [b]) % TWO_32
  {
    hide VarintValue, Pow2, Pow128, Merge;
    var k, group := |read|, b as nat % 128;
    VarintValueAppend(read, b);
    if k >= 5 {
      HighGroupsVanish(k, VarintValue(read), group);
    } else {
      GroupPower(k);
      ValueBound(read);
      GroupPowerBound(k);
      MergeAdds(result, b, 7 * k);
      assert group * Pow128(k) == Pow128(k) * group;
      AddModulo(VarintValue(read), Pow128(k) * group);
    }
  }

  lemma {:induction false} Dec32TailAgrees(read: seq<byte>, s: seq<byte>, result: nat)
    requires 0 < |read| < 10 && result == VarintValue(read) % TWO_32
    requires Dec32Tail(s, result, 7 * |read|).Some? && |read| + |s| - |Dec32Tail(s, result, 7 * |read|).value.rest| <= 10
    ensures var got, n := Dec32Tail(s, result, 7 * |read|).value, VarintLength(s);
      n.Some? && got == Got(VarintValue(read + s[..n.value]) % TWO_32, s[n.value..])
    decreases |s|
  {
    hide VarintValue, Merge, Pow2;
    Accumulate(read, s[0], result);
    if s[0] >= 128 {
      var next := VarintValue(read + [s[0]]) % TWO_32;
      Dec32TailAgrees(read + [s[0]], s[1..], next);
      ReadOn(read, s, VarintLength(s[1..]).value);
    } else {
      assert s[..1] == [s[0]];
    }
  }

  lemma ReadOn(read: seq<byte>, s: seq<byte>, n: nat)
    requires n < |s|
    ensures read + [s[0]] + s[1..][..n] == read + s[..n + 1] && s[1..][n..] == s[n + 1..]
  {
  }

  lemma OneByteValue(b: byte)
    ensures VarintValue([b]) == b as nat % 128
  {
    assert [b][1..] == [];
  }

  lemma ModuloTwice(x: nat)
    ensures x % TWO_64 % TWO_32 == x % TWO_32
  {
    assert x == x / TWO_64 * TWO_64 + x % TWO_64;
    assert x / TWO_64 * TWO_64 == TWO_32 * (x / TWO_64 * TWO_32);
  }

  /** On varints of at most ten bytes the 32-bit decoder, when it accepts, consumes what the
      64-bit decoder does and returns its value modulo 2^32. */
  lemma Dec32Agrees(s: seq<byte>)
    requires Dec32(s).Some? && |s| - |Dec32(s).value.rest| <= 10
    ensures Dec64(s).Some? && Dec64(s).value.rest == Dec32(s).value.rest
    ensures Dec32(s).value.value == Dec64(s).value.value % TWO_32
  {
    hide VarintValue, Dec32Tail;
    OneByteValue(s[0]);
    if s[0] >= 128 {
      Dec32TailAgrees([s[0]], s[1..], s[0] as nat - 128);
      var n := VarintLength(s[1..]).value;
      assert [s[0]] + s[1..][..n] == s[..n + 1];
      assert s[1..][n..] == s[n + 1..];
    } else {
      assert s[..1] == [s[0]];
    }
    ModuloTwice(VarintValue(s[..VarintLength(s).value]));
  }

  lemma SplitGroup(v: nat, p: nat)
    ensures v * p == v % 128 * p + v / 128 * (128 * p)
  {
    assert v == v % 128 + 128 * (v / 128);
  }

  lemma Dec32TailStep(w: nat, result: nat, k: nat, next: nat, rest: seq<byte>)
    requires 1 <= k <= 4 && w >= 128 && result < Pow128(k) <= TWO_32
    requires next == (result + w % 128 * Pow128(k)) % TWO_32
    ensures Dec32Tail(EncVarint(w) + rest, result, 7 * k) == Dec32Tail(EncVarint(w / 128) + rest, next, 7 * k + 7)
  {
    hide Pow2, Pow128, Merge;
    GroupPower(k);
    var s := EncVarint(w) + rest;
    MergeAdds(result, s[0], 7 * k);
    assert s[0] as nat % 128 == w % 128;
    assert s[1..] == EncVarint(w / 128) + rest;
  }

  lemma Dec32First(v: nat, rest: seq<byte>)
    requires v >= 128
    ensures Dec32(EncVarint(v) + rest) == Dec32Tail(EncVarint(v / 128) + rest, v % 128, 7)
  {
    assert (EncVarint(v) + rest)[1..] == EncVarint(v / 128) + rest;
  }

  lemma Dec32TailLast(v: nat, result: nat, k: nat, rest: seq<byte>)
    requires 1 <= k <= 4 && 0 < v < 128 && result < Pow128(k) && result + v * Pow128(k) < TWO_32
    ensures Dec32Tail(EncVarint(v) + rest, result, 7 * k) == Some(Got(result + v * Pow128(k), rest))
  {
    hide Merge, Pow2;
    GroupPowers();
    assert (EncVarint(v) + rest)[1..] == rest;
    MergeAdds(result, v, 7 * k);
  }

  lemma GroupBound(v: nat, k: nat)
    requires 1 <= k <= 4 && v >= 128 && v * Pow128(k) < TWO_32
    ensures k < 4 && v * Pow128(k) == v % 128 * Pow128(k) + v / 128 * Pow128(k + 1)
    ensures 0 <= v % 128 * Pow128(k) <= 127 * Pow128(k) && v / 128 * Pow128(k + 1) >= 0 && Pow128(k) <= TWO_32
    ensures Pow128(k + 1) == 128 * Pow128(k)
  {
    GroupPowers();
    SplitGroup(v, Pow128(k));
  }

  lemma {:induction false} Dec32TailEncoded(v: nat, result: nat, k: nat, rest: seq<byte>)
    requires 1 <= k <= 4 && v > 0 && result < Pow128(k) && result + v * Pow128(k) < TWO_32
    ensures Dec32Tail(EncVarint(v) + rest, result, 7 * k) == Some(Got(result + v * Pow128(k), rest))
    decreases v
  {
    if v >= 128 {
      var low, high := v % 128 * Pow128(k), v / 128 * Pow128(k + 1);
      GroupBound(v, k);
      Dec32TailStep(v, result, k, result + low, rest);
      Dec32TailEncoded(v / 128, result + low, k + 1, rest);
      assert result + low + high == result + v * Pow128(k);
    } else {
      Dec32TailLast(v, result, k, rest);
    }
  }

  /** Every uint32 is read back. */
  lemma Dec32Encoded(v: nat, rest: seq<byte>)
    requires v < TWO_32
    ensures Dec32(EncVarint(v) + rest) == Some(Got(v, rest))
  {
    if v >= 128 {
      hide Dec32, Dec32Tail, EncVarint;
      GroupPowers();
      Dec32First(v, rest);
      assert v == v % 128 + v / 128 * 0x80;
      Dec32TailEncoded(v / 128, v % 128, 1, rest);
    } else {
      Dec32OneByte(v, rest);
    }
  }

  lemma Dec32OneByte(v: nat, rest: seq<byte>)
    requires v < 128
    ensures Dec32(EncVarint(v) + rest) == Some(Got(v, rest))
  {
    hide Dec32Tail;
    assert EncVarint(v) == [v];
    assert ([v] + rest)[1..] == rest;
  }

  lemma SignPadding(result: nat, rest: seq<byte>)
    requires 0x8000_0000 <= result < TWO_32
    ensures Dec32Tail(EncVarint(0x1FFF_FFFF) + rest, result, 35) == Some(Got(result, rest))
  {
    var pad: seq<byte> := [0xFF, 0xFF, 0xFF, 0xFF, 0x01];
    assert EncVarint(0x1FFF_FFFF) == pad by {
      assert EncVarint(1) == [1];
      assert EncVarint(0xFF) == [0xFF] + EncVarint(1);
      assert EncVarint(0x7FFF) == [0xFF] + EncVarint(0xFF);
      assert EncVarint(0x3F_FFFF) == [0xFF] + EncVarint(0x7FFF);
      assert EncVarint(0x1FFF_FFFF) == [0xFF] + EncVarint(0x3F_FFFF);
    }
    var s := pad + rest;
    assert s[1..][1..] == s[2..] && s[2..][1..] == s[3..] && s[3..][1..] == s[4..] && s[4..][1..] == rest;
    assert Dec32Tail(s[4..], result, 63) == Some(Got(result, rest));
    assert Dec32Tail(s[2..], result, 49) == Dec32Tail(s[3..], result, 56);
  }

  lemma LowGroups(v: nat)
    ensures (v % 0x80 + v / 0x80 % 128 * 0x80) % TWO_32 == v % 0x4000
    ensures (v % 0x4000 + v / 0x4000 % 128 * 0x4000) % TWO_32 == v % 0x20_0000
  {
    var q1, q2 := v / 0x80, v / 0x4000;
    assert v == 0x4000 * (q1 / 128) + (q1 % 128 * 0x80 + v % 0x80);
    assert v == 0x20_0000 * (q2 / 128) + (q2 % 128 * 0x4000 + v % 0x4000);
  }

  lemma FourthGroup(v: nat)
    ensures (v % 0x20_0000 + v / 0x20_0000 % 128 * 0x20_0000) % TWO_32 == v % 0x1000_0000
  {
    var q := v / 0x20_0000;
    assert v == 0x1000_0000 * (q / 128) + (q % 128 * 0x20_0000 + v % 0x20_0000);
  }

  lemma FifthGroup(v: nat)
    ensures (v % 0x1000_0000 + v / 0x1000_0000 % 128 * 0x1000_0000) % TWO_32 == v % TWO_32
  {
    var q := v / 0x1000_0000;
    assert v == TWO_32 * (8 * (q / 128)) + (v % 0x1000_0000 + q % 128 * 0x1000_0000);
  }

  lemma NextGroups(v: nat)
    ensures v / 128 / 128 == v / 0x4000 && v / 0x4000 / 128 == v / 0x20_0000
    ensures v / 0x20_0000 / 128 == v / 0x1000_0000 && v / 0x1000_0000 / 128 == v / 0x8_0000_0000
  {
  }

  /** And every negative int32 that was sign-extended to 64 bits. */
  lemma Dec32SignExtended(v: nat, rest: seq<byte>)
    requires TWO_64 - 0x8000_0000 <= v < TWO_64
    ensures Dec32(EncVarint(v) + rest) == Some(Got(v % TWO_32, rest))
  {
    hide Pow128, Dec32, Dec32Tail, EncVarint;
    GroupPowers();
    Dec32First(v, rest);
    NextGroups(v);
    Dec32ThirtyTwoBits(v, rest);
    assert v / 0x8_0000_0000 == 0x1FFF_FFFF;
    assert v % TWO_32 >= 0x8000_0000;
    SignPadding(v % TWO_32, rest);
  }

  lemma Dec32ThirtyTwoBits(v: nat, rest: seq<byte>)
    requires v >= TWO_64 - 0x8000_0000
    ensures Dec32Tail(EncVarint(v / 128) + rest, v % 128, 7) == Dec32Tail(EncVarint(v / 0x8_0000_0000) + rest, v % TWO_32, 35)
  {
    hide Pow128, Dec32Tail, EncVarint;
    GroupPowers();
    NextGroups(v);
    LowGroups(v);
    FourthGroup(v);
    FifthGroup(v);
    Dec32TailStep(v / 0x80, v % 0x80, 1, v % 0x4000, rest);
    Dec32TailStep(v / 0x4000, v % 0x4000, 2, v % 0x20_0000, rest);
    Dec32TailStep(v / 0x20_0000, v % 0x20_0000, 3, v % 0x1000_0000, rest);
    Dec32TailStep(v / 0x1000_0000, v % 0x1000_0000, 4, v % TWO_32, rest);
  }

  // ---- ZigZag ----

  /** The 64-bit operations of C that the two functions use, with their wrap-around. */
  function ToUnsigned(v: int): (n: nat)
    ensures n < TWO_64
  {
    v % TWO_64
  }

  function ToSigned(n: nat): int {
    if n < TWO_63 then n else n - TWO_64
  }

  function ShiftLeft(n: nat): (r: nat)
    ensures r < TWO_64
  {
    2 * n % TWO_64
  }

  function Complement(n: nat): (r: nat)
    requires n < TWO_64
    ensures r < TWO_64
  {
    TWO_64 - 1 - n
  }

  /** pb_encode_svarint as written: the shift drops the sign bit, and the complement brings it back. */
  function ZigZag64(v: int): nat
    requires -TWO_63 <= v < TWO_63
  {
    if v < 0 then Complement(ShiftLeft(ToUnsigned(v))) else ShiftLeft(ToUnsigned(v))
  }

  /** pb_decode_svarint as written. */
  function ZagZig64(n: nat): int
    requires n < TWO_64
  {
    if n % 2 == 1 then ToSigned(Complement(n / 2)) else ToSigned(n / 2)
  }

  /** No bit is lost in either, and they are each other's inverse on all 64-bit values. */
  lemma ZigZag64Inverse(v: int, n: nat)
    requires -TWO_63 <= v < TWO_63 && n < TWO_64
    ensures ZigZag64(v) == ZigZag(v) < TWO_64 && ZagZig64(n) == ZagZig(n) && -TWO_63 <= ZagZig64(n) < TWO_63
    ensures ZagZig64(ZigZag64(v)) == v && ZigZag64(ZagZig64(n)) == n
  {
    assert ToUnsigned(v) == if v < 0 then v + TWO_64 else v;
  }

  const SIGN_BIT: bv64 := 0x8000_0000_0000_0000

  /** The same on the bits themselves: the sign goes to the low end, and comes back. */
  function ZigBits(b: bv64): bv64 {
    if b & SIGN_BIT != 0 then !(b << 1) else b << 1
  }

  function ZagBits(z: bv64): bv64 {
    if z & 1 != 0 then !(z >> 1) else z >> 1
  }

  lemma ZigZagBits(b: bv64, z: bv64)
    ensures z == ZigBits(b) <==> b == ZagBits(z)
  {
    if z == ZigBits(b) {
      BitsBack(b, z);
    }
    if b == ZagBits(z) {
      BitsForth(b, z);
    }
  }

  lemma BitsBack(b: bv64, z: bv64)
    requires z == ZigBits(b)
    ensures b == ZagBits(z)
  {
  }

  lemma BitsForth(b: bv64, z: bv64)
    requires b == ZagBits(z)
    ensures z == ZigBits(b)
  {
    if z & 1 != 0 {
      OddForth(b, z);
    } else {
      EvenForth(b, z);
    }
  }

  lemma OddForth(b: bv64, z: bv64)
    requires z & 1 != 0 && b == !(z >> 1)
    ensures b & SIGN_BIT != 0 && !(b << 1) == z
  {
  }

  lemma EvenForth(b: bv64, z: bv64)
    requires z & 1 == 0 && b == z >> 1
    ensures b & SIGN_BIT == 0 && b << 1 == z
  {
  }

  /** What they compute, for -2^63 <= v < 2^63. */
  function ZigZag(v: int): nat {
    if v < 0 then -2 * v - 1 else 2 * v
  }

  function ZagZig(n: nat): int {
    if n % 2 == 1 then -(n / 2) - 1 else n / 2
  }

  lemma ZigZagInverse(v: int, n: nat)
    ensures ZagZig(ZigZag(v)) == v && ZigZag(ZagZig(n)) == n
    ensures -TWO_63 <= v < TWO_63 <==> ZigZag(v) < TWO_64
  {
  }

  // ---- Fixed width ----

  function EncFixed(v: nat, width: nat): (s: seq<byte>)
    ensures |s| == width
  {
    if width == 0 then [] else [v % 256] + EncFixed(v / 256, width - 1)
  }

  function FixedValue(s: seq<byte>): nat {
    if s == [] then 0 else s[0] as nat + 256 * FixedValue(s[1..])
  }

  function Pow256(k: nat): (p: nat)
    ensures p > 0
  {
    if k == 0 then 1 else 256 * Pow256(k - 1)
  }

  lemma {:induction false} FixedInverse(v: nat, width: nat)
    requires v < Pow256(width)
    ensures FixedValue(EncFixed(v, width)) == v
  {
    if width > 0 {
      FixedInverse(v / 256, width - 1);
      assert EncFixed(v, width)[1..] == EncFixed(v / 256, width - 1);
    }
  }

  // ---- Tags ----

  const WT_VARINT := 0
  const WT_64BIT := 1
  const WT_STRING := 2
  const WT_32BIT := 5

  function EncTag(tag: nat, wireType: nat): seq<byte>
    requires wireType < 8
  {
    EncVarint(8 * tag + wireType)
  }

  /** pb_decode_tag: a zero ends the message. */
  datatype TagResult = TagError | EndOfMessage(rest: seq<byte>) | Tag(tag: nat, wireType: nat, rest: seq<byte>)

  function DecTag(s: seq<byte>): (r: TagResult)
    ensures r.EndOfMessage? || r.Tag? ==> |r.rest| < |s|
    ensures r.Tag? ==> r.wireType < 8
  {
    var v := Dec32(s);
    if v.None? then TagError
    else if v.value.value == 0 then EndOfMessage(v.value.rest)
    else Tag(v.value.value / 8, v.value.value % 8, v.value.rest)
  }

  lemma DecTagEncoded(tag: nat, wireType: nat, rest: seq<byte>)
    requires 0 < tag < 0x2000_0000 && wireType < 8
    ensures DecTag(EncTag(tag, wireType) + rest) == Tag(tag, wireType, rest)
  {
    hide Dec32, EncVarint;
    Dec32Encoded(8 * tag + wireType, rest);
  }
}
