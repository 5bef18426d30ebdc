/** The cyclic walk over a field table (pb_common.c), and the words in which pb_decode_noinit notes
    the required fields it has seen. */
module PbFields {
  import opened Common
  import opened PbSchema
  import opened PbCodec

  // ---- Where fields lie in the C struct ----

  /** The layout columns of a pb_field_t. `dataOffset` is the gap after the previous field, or
      PB_SIZE_MAX for a member that shares the storage of the union member before it. */
  datatype Place = Place(dataOffset: nat, sizeOffset: int, dataSize: nat)

  /** The build defines PB_FIELD_32BIT. */
  const PB_SIZE_MAX := 0xFFFF_FFFF

  /** The fields of a descriptor and their places. The terminator, all zeros, comes after them. */
  datatype Table = Table(desc: Desc, places: seq<Place>)

  predicate WfTable(t: Table) {
    |t.places| == |t.desc.fields| && forall i | 0 <= i < |t.desc.fields| :: t.desc.fields[i].tag != 0
  }

  function Size(t: Table): nat {
    |t.desc.fields|
  }

  function TagAt(t: Table, k: nat): nat {
    if k < Size(t) then t.desc.fields[k].tag else 0
  }

  function HTypeAt(t: Table, k: nat): HType {
    if k < Size(t) then t.desc.fields[k].h else Required
  }

  function PlaceAt(t: Table, k: nat): Place
    requires WfTable(t)
  {
    if k < Size(t) then t.places[k] else Place(0, 0, 0)
  }

  /** The bytes a field takes in the struct: one element, or all of an array. */
  function Extent(t: Table, k: nat): nat
    requires WfTable(t)
  {
    match HTypeAt(t, k)
    case Repeated(n, _) => PlaceAt(t, k).dataSize * n
    case _ => PlaceAt(t, k).dataSize
  }

  /** Whether field `k` is in one union with field `k - 1`. */
  predicate Joined(t: Table, k: nat)
    requires WfTable(t)
  {
    k > 0 && HTypeAt(t, k - 1).Oneof? && HTypeAt(t, k).Oneof? && PlaceAt(t, k).dataOffset == PB_SIZE_MAX
  }

  /** The offset of field `k` from the start of the struct. */
  function DataOffset(t: Table, k: nat): nat
    requires WfTable(t)
  {
    if k == 0 then PlaceAt(t, 0).dataOffset
    else if Joined(t, k) then DataOffset(t, k - 1)
    else DataOffset(t, k - 1) + Extent(t, k - 1) + PlaceAt(t, k).dataOffset
  }

  /** The offset of its count, has_ flag or which_ tag; the members of a union have one in common. */
  function SizeOffset(t: Table, k: nat): int
    requires WfTable(t)
  {
    if Joined(t, k) then SizeOffset(t, k - 1) else DataOffset(t, k) + PlaceAt(t, k).sizeOffset
  }

  /** The members of a union share their storage and their which_ tag. */
  lemma {:induction false} UnionShared(t: Table, j: nat, k: nat)
    requires WfTable(t) && j <= k < Size(t) && forall i | j < i <= k :: Joined(t, i)
    ensures DataOffset(t, j) == DataOffset(t, k) && SizeOffset(t, j) == SizeOffset(t, k)
    decreases k
  {
    if j < k {
      UnionShared(t, j, k - 1);
    }
  }

  /** Fields that are not in one union do not overlap. */
  lemma {:induction false} FieldsApart(t: Table, j: nat, k: nat)
    requires WfTable(t) && j < k < Size(t) && !Joined(t, j + 1)
    ensures DataOffset(t, j) + Extent(t, j) <= DataOffset(t, k)
    decreases k
  {
    if j + 1 < k {
      FieldsApart(t, j, k - 1);
    }
  }

  lemma AtIndex(d: Desc, tag: nat)
    ensures Has(d, tag) <==> exists k | 0 <= k < |d.fields| :: d.fields[k].tag == tag
    ensures Distinct(d) ==> forall k | 0 <= k < |d.fields| && d.fields[k].tag == tag :: k == IndexFrom(d.fields, tag)
  {
  }

  // ---- The iterator ----

  /** pb_field_iter_t. The offsets are relative to the struct. */
  class FieldIter {
    const table: Table
    var pos: nat
    var requiredIndex: nat
    var pData: int
    var pSize: int

    /** The iterator always stands where a fresh walk to `pos` would have put it. */
    ghost predicate Valid()
      reads this
    {
      && WfTable(table)
      && pos < (if Size(table) == 0 then 1 else Size(table))
      && requiredIndex == RequiredBefore(table.desc, pos)
      && pData == DataOffset(table, pos)
      && pSize == SizeOffset(table, pos)
    }

    constructor (table: Table)
      requires WfTable(table)
      ensures Valid() && this.table == table && pos == 0
    {
      this.table := table;
      pos := 0;
      requiredIndex := 0;
      pData := PlaceAt(table, 0).dataOffset;
      pSize := PlaceAt(table, 0).dataOffset + PlaceAt(table, 0).sizeOffset;
    }

    /** pb_field_iter_begin. */
    method Begin() returns (nonempty: bool)
      requires WfTable(table)
      modifies this
      ensures Valid() && pos == 0 && nonempty == (Size(table) > 0)
    {
      pos := 0;
      requiredIndex := 0;
      pData := PlaceAt(table, pos).dataOffset;
      pSize := pData + PlaceAt(table, pos).sizeOffset;
      nonempty := TagAt(table, pos) != 0;
    }

    /** pb_field_iter_next: false when the walk has come back to the first field. */
    method Next() returns (more: bool)
      requires Valid()
      modifies this
      ensures Valid()
      ensures more == (old(pos) + 1 < Size(table))
      ensures pos == if more then old(pos) + 1 else 0
    {
      var prev := pos;
      if TagAt(table, prev) == 0 {
        return false;
      }
      pos := pos + 1;
      if TagAt(table, pos) == 0 {
        var _ := Begin();
        return false;
      }
      if HTypeAt(table, prev).Oneof? && HTypeAt(table, pos).Oneof? && PlaceAt(table, pos).dataOffset == PB_SIZE_MAX {
        return true;
      }
      var prevSize := PlaceAt(table, prev).dataSize;
      if HTypeAt(table, prev).Repeated? {
        prevSize := prevSize * HTypeAt(table, prev).arraySize;
      }
      if HTypeAt(table, prev) == Required {
        requiredIndex := requiredIndex + 1;
      }
      pData := pData + prevSize + PlaceAt(table, pos).dataOffset;
      pSize := pData + PlaceAt(table, pos).sizeOffset;
      return true;
    }

    /** pb_field_iter_find, from wherever the iterator stands. In an empty table a zero tag is found
        at the terminator. */
    method Find(tag: nat) returns (found: bool)
      requires Valid()
      modifies this
      ensures Valid()
      ensures found <==> Has(table.desc, tag) || (Size(table) == 0 && tag == 0)
      ensures found ==> TagAt(table, pos) == tag
      ensures found && Distinct(table.desc) && Size(table) > 0 ==> pos == IndexFrom(table.desc.fields, tag)
      ensures !found ==> pos == old(pos)
    {
      var start := pos;
      AtIndex(table.desc, tag);
      if TagAt(table, pos) == tag {
        return true;
      }
      var _ := Next();
      while pos != start
        invariant Valid()
        invariant forall k | 0 <= k < Size(table) && (if start < pos then start <= k < pos else k < pos || start <= k) ::
          TagAt(table, k) != tag
        decreases if start < pos then Size(table) - pos + start else start - pos
      {
        if TagAt(table, pos) == tag {
          return true;
        }
        var _ := Next();
      }
      assert forall k | 0 <= k < Size(table) :: TagAt(table, k) != tag;
      assert forall k | 0 <= k < Size(table) :: table.desc.fields[k].tag == TagAt(table, k);
      return false;
    }

    /** How pb_decode_noinit counts the required fields when it is done. */
    method CountRequired() returns (count: nat)
      requires Valid()
      modifies this
      ensures Valid() && count == RequiredBefore(table.desc, Size(table))
    {
      count := requiredIndex;
      var lastType := HTypeAt(table, pos);
      ghost var last: nat := pos;
      var more := Next();
      while more
        invariant Valid() && last < (if Size(table) == 0 then 1 else Size(table)) && last <= Size(table)
        invariant count == RequiredBefore(table.desc, last) && lastType == HTypeAt(table, last)
        invariant if more then pos == last + 1 else pos == 0 && last + 1 >= Size(table)
        decreases more, Size(table) + 1 - last
      {
        count := requiredIndex;
        lastType := HTypeAt(table, pos);
        last := pos;
        more := Next();
      }
      if lastType == Required && TagAt(table, pos) != 0 {
        count := count + 1;
      }
    }
  }

  // ---- Required fields seen ----

  lemma {:induction false} RequiredIndexBelow(d: Desc, i: nat, n: nat)
    requires i < n <= |d.fields| && d.fields[i].h == Required
    ensures RequiredBefore(d, i) < RequiredBefore(d, n)
  {
    if i + 1 < n {
      RequiredIndexBelow(d, i, n - 1);
    }
  }

  predicate Bit(w: bv32, i: bv6)
    requires i < 32
  {
    (w >> i) & 1 == 1
  }

  function WithBit(w: bv32, i: bv6): bv32
    requires i < 32
  {
    w | (1 << i)
  }

  const ALL_BITS: bv32 := 0xFFFF_FFFF

  function LowBits(n: bv6): bv32
    requires n <= 32
  {
    ALL_BITS >> (32 - n)
  }

  lemma WithBitBit(w: bv32, i: bv6, k: bv6)
    requires i < 32 && k < 32
    ensures Bit(WithBit(w, i), k) <==> Bit(w, k) || k == i
  {
  }

  lemma LowBitsBit(n: bv6, k: bv6)
    requires n <= 32 && k < 32
    ensures Bit(LowBits(n), k) <==> k < n
  {
  }

  lemma NoBits(k: bv6)
    requires k < 32
    ensures !Bit(0, k)
  {
  }

  function ByteAt(w: bv32, s: bv6): bv32
    requires s <= 24
  {
    w & (0xFF << s)
  }

  lemma SameByte(a: bv32, b: bv32, s: bv6)
    requires s <= 24
    requires Bit(a, s) == Bit(b, s) && Bit(a, s + 1) == Bit(b, s + 1) && Bit(a, s + 2) == Bit(b, s + 2)
    requires Bit(a, s + 3) == Bit(b, s + 3) && Bit(a, s + 4) == Bit(b, s + 4) && Bit(a, s + 5) == Bit(b, s + 5)
    requires Bit(a, s + 6) == Bit(b, s + 6) && Bit(a, s + 7) == Bit(b, s + 7)
    ensures ByteAt(a, s) == ByteAt(b, s)
  {
  }

  lemma FourBytes(a: bv32, b: bv32)
    requires ByteAt(a, 0) == ByteAt(b, 0) && ByteAt(a, 8) == ByteAt(b, 8)
    requires ByteAt(a, 16) == ByteAt(b, 16) && ByteAt(a, 24) == ByteAt(b, 24)
    ensures a == b
  {
  }

  ghost predicate SameBits(a: bv32, b: bv32) {
    forall i: bv6 | i < 32 :: Bit(a, i) == Bit(b, i)
  }

  lemma ByteOfWord(a: bv32, b: bv32, s: bv6)
    requires s <= 24 && SameBits(a, b)
    ensures ByteAt(a, s) == ByteAt(b, s)
  {
    hide Bit;
    assert Bit(a, s) == Bit(b, s) && Bit(a, s + 1) == Bit(b, s + 1) && Bit(a, s + 2) == Bit(b, s + 2);
    SameByte(a, b, s);
  }

  lemma SameWord(a: bv32, b: bv32)
    requires SameBits(a, b)
    ensures a == b
  {
    hide Bit, SameBits, ByteAt;
    ByteOfWord(a, b, 0);
    ByteOfWord(a, b, 8);
    ByteOfWord(a, b, 16);
    ByteOfWord(a, b, 24);
    FourBytes(a, b);
  }

  lemma WordFull(w: bv32, count: bv6)
    requires 0 < count <= 32
    ensures w == LowBits(count) <==> forall i: bv6 | i < 32 :: Bit(w, i) <==> i < count
  {
    hide Bit, LowBits, ByteAt;
    forall i: bv6 | i < 32
      ensures Bit(LowBits(count), i) <==> i < count
    {
      LowBitsBit(count, i);
    }
    if forall i: bv6 | i < 32 :: Bit(w, i) <==> i < count {
      SameWord(w, LowBits(count));
    }
  }

  /** fields_seen of pb_decode_noinit: one bit for each of the first 64 required fields. */
  class FieldsSeen {
    const words: array<bv32>
    ghost var seen: set<nat>

    ghost predicate Valid()
      reads this, words
    {
      && words.Length == 2
      && (forall k <- seen :: k < MAX_REQUIRED_FIELDS)
      && forall w: nat, i: bv6 | w < 2 && i < 32 :: Bit(words[w], i) <==> 32 * w + i as nat in seen
    }

    constructor ()
      ensures Valid() && fresh(words) && seen == {}
    {
      words := new bv32[2](_ => 0);
      seen := {};
      new;
      forall i: bv6 | i < 32
        ensures !Bit(0, i)
      {
        NoBits(i);
      }
    }

    method Mark(index: nat)
      requires Valid() && index < MAX_REQUIRED_FIELDS
      modifies this, words
      ensures Valid() && seen == old(seen) + {index}
    {
      hide Bit, WithBit;
      var word, bit := index / 32, (index % 32) as bv6;
      words[word] := WithBit(words[word], bit);
      seen := seen + {index};
      forall w: nat, i: bv6 | w < 2 && i < 32
        ensures Bit(words[w], i) <==> 32 * w + i as nat in seen
      {
        WithBitBit(old(words[word]), bit, i);
        PlaceOfIndex(index, i);
        assert Bit(old(words[w]), i) <==> 32 * w + i as nat in old(seen);
      }
    }

    static lemma PlaceOfIndex(index: nat, i: bv6)
      requires i < 32
      ensures i == (index % 32) as bv6 <==> 32 * (index / 32) + i as nat == index
    {
    }

    /** The final check: whole words first, then the remaining bits. */
    method Complete(required: nat) returns (ok: bool)
      requires Valid() && forall k <- seen :: k < required
      ensures ok <==> forall k | 0 <= k < required && k < MAX_REQUIRED_FIELDS :: k in seen
    {
      hide Bit, LowBits;
      var count := if required > MAX_REQUIRED_FIELDS then MAX_REQUIRED_FIELDS else required;
      for w := 0 to count / 32
        invariant forall k | 0 <= k < 32 * w :: k in seen
      {
        WordSeen(w, 32);
        if words[w] != LowBits(32) {
          return false;
        }
      }
      if count % 32 != 0 {
        WordSeen(count / 32, count % 32);
        if words[count / 32] != LowBits((count % 32) as bv6) {
          return false;
        }
      }
      return true;
    }

    lemma WordSeen(w: nat, count: nat)
      requires Valid() && w < 2 && 0 < count <= 32 && (count < 32 ==> forall k <- seen :: k < 32 * w + count)
      ensures words[w] == LowBits(count as bv6) <==> forall k | 32 * w <= k < 32 * w + count :: k in seen
    {
      hide Bit, LowBits;
      WordFull(words[w], count as bv6);
      if forall k | 32 * w <= k < 32 * w + count :: k in seen {
        forall i: bv6 | i < 32
          ensures Bit(words[w], i) <==> i < count as bv6
        {
          BitSeen(w, count, i);
        }
      }
      if forall i: bv6 | i < 32 :: Bit(words[w], i) <==> i < count as bv6 {
        forall k | 32 * w <= k < 32 * w + count
          ensures k in seen
        {
          SeenBit(w, count, k);
        }
      }
    }

    lemma BitSeen(w: nat, count: nat, i: bv6)
      requires Valid() && w < 2 && 0 < count <= 32 && i < 32 && (count < 32 ==> forall k <- seen :: k < 32 * w + count)
      requires forall k | 32 * w <= k < 32 * w + count :: k in seen
      ensures Bit(words[w], i) <==> i < count as bv6
    {
      hide Bit;
      var n := i as nat;
      assert Bit(words[w], i) <==> 32 * w + n in seen;
      assert i < count as bv6 <==> n < count;
    }

    lemma SeenBit(w: nat, count: nat, k: nat)
      requires Valid() && w < 2 && 0 < count <= 32 && 32 * w <= k < 32 * w + count
      requires forall i: bv6 | i < 32 :: Bit(words[w], i) <==> i < count as bv6
      ensures k in seen
    {
      hide Bit;
      var i := (k - 32 * w) as bv6;
      assert i as nat == k - 32 * w;
      assert Bit(words[w], i) <==> 32 * w + i as nat in seen;
    }
  }
}
