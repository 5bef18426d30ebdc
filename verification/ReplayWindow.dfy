/** The anti-replay window of DTLS (section 4.1.2.6 of RFC 6347), as dtls_record.cc keeps it:
    a 64-bit mask that slides along with the largest record number seen in the epoch. */
module ReplayWindow {

  const WINDOW := 64

  function Probe(m: bv64, i: bv7): bv64
    requires i < 64
  {
    (m >> i) & 1
  }

  /** Bit `i` of a mask stands for record number `max - i`. */
  predicate Bit(m: bv64, i: bv7)
    requires i < 64
  {
    Probe(m, i) == 1
  }

  function Shifted(m: bv64, s: bv7): bv64
    requires s < 64
  {
    m << s
  }

  function WithBit(m: bv64, i: bv7): bv64
    requires i < 64
  {
    m | (1 << i)
  }

  // ---- Shifting up by s: by one binary digit of s after another ----

  lemma Stage1(m: bv64, s: bv7, i: bv7)
    requires s < 64 && s & 1 <= i < 64
    ensures Probe(Shifted(m, s & 1), i) == Probe(m, i - (s & 1))
  {
  }

  lemma Merge2(m: bv64, s: bv7)
    requires s < 64
    ensures Shifted(m, s & 3) == Shifted(Shifted(m, s & 1), s & 2)
  {
  }

  lemma Stage2(m: bv64, s: bv7, i: bv7)
    requires s < 64 && s & 2 <= i < 64
    ensures Probe(Shifted(m, s & 2), i) == Probe(m, i - (s & 2))
  {
  }

  lemma Index2(s: bv7, i: bv7)
    requires s < 64 && s & 3 <= i < 64
    ensures s & 2 <= i && s & 1 <= i - (s & 2) < 64 && i - (s & 2) - (s & 1) == i - (s & 3)
  {
  }

  lemma UpTo2(m: bv64, s: bv7, i: bv7)
    requires s < 64 && s & 3 <= i < 64
    ensures Probe(Shifted(m, s & 3), i) == Probe(m, i - (s & 3))
  {
    hide Probe, Shifted;
    Index2(s, i);
    Merge2(m, s);
    Stage2(Shifted(m, s & 1), s, i);
    Stage1(m, s, i - (s & 2));
  }

  lemma Merge4(m: bv64, s: bv7)
    requires s < 64
    ensures Shifted(m, s & 7) == Shifted(Shifted(m, s & 3), s & 4)
  {
  }

  lemma Stage4(m: bv64, s: bv7, i: bv7)
    requires s < 64 && s & 4 <= i < 64
    ensures Probe(Shifted(m, s & 4), i) == Probe(m, i - (s & 4))
  {
  }

  lemma Index4(s: bv7, i: bv7)
    requires s < 64 && s & 7 <= i < 64
    ensures s & 4 <= i && s & 3 <= i - (s & 4) < 64 && i - (s & 4) - (s & 3) == i - (s & 7)
  {
  }

  lemma UpTo4(m: bv64, s: bv7, i: bv7)
    requires s < 64 && s & 7 <= i < 64
    ensures Probe(Shifted(m, s & 7), i) == Probe(m, i - (s & 7))
  {
    hide Probe, Shifted;
    Index4(s, i);
    Merge4(m, s);
    Stage4(Shifted(m, s & 3), s, i);
    UpTo2(m, s, i - (s & 4));
  }

  lemma Merge8(m: bv64, s: bv7)
    requires s < 64
    ensures Shifted(m, s & 15) == Shifted(Shifted(m, s & 7), s & 8)
  {
  }

  lemma Stage8(m: bv64, s: bv7, i: bv7)
    requires s < 64 && s & 8 <= i < 64
    ensures Probe(Shifted(m, s & 8), i) == Probe(m, i - (s & 8))
  {
  }

  lemma Index8(s: bv7, i: bv7)
    requires s < 64 && s & 15 <= i < 64
    ensures s & 8 <= i && s & 7 <= i - (s & 8) < 64 && i - (s & 8) - (s & 7) == i - (s & 15)
  {
  }

  lemma UpTo8(m: bv64, s: bv7, i: bv7)
    requires s < 64 && s & 15 <= i < 64
    ensures Probe(Shifted(m, s & 15), i) == Probe(m, i - (s & 15))
  {
    hide Probe, Shifted;
    Index8(s, i);
    Merge8(m, s);
    Stage8(Shifted(m, s & 7), s, i);
    UpTo4(m, s, i - (s & 8));
  }

  lemma Merge16(m: bv64, s: bv7)
    requires s < 64
    ensures Shifted(m, s & 31) == Shifted(Shifted(m, s & 15), s & 16)
  {
  }

  lemma Stage16(m: bv64, s: bv7, i: bv7)
    requires s < 64 && s & 16 <= i < 64
    ensures Probe(Shifted(m, s & 16), i) == Probe(m, i - (s & 16))
  {
  }

  lemma Index16(s: bv7, i: bv7)
    requires s < 64 && s & 31 <= i < 64
    ensures s & 16 <= i && s & 15 <= i - (s & 16) < 64 && i - (s & 16) - (s & 15) == i - (s & 31)
  {
  }

  lemma UpTo16(m: bv64, s: bv7, i: bv7)
    requires s < 64 && s & 31 <= i < 64
    ensures Probe(Shifted(m, s & 31), i) == Probe(m, i - (s & 31))
  {
    hide Probe, Shifted;
    Index16(s, i);
    Merge16(m, s);
    Stage16(Shifted(m, s & 15), s, i);
    UpTo8(m, s, i - (s & 16));
  }

  lemma Merge32(m: bv64, s: bv7)
    requires s < 64
    ensures Shifted(m, s & 63) == Shifted(Shifted(m, s & 31), s & 32)
  {
  }

  lemma Stage32(m: bv64, s: bv7, i: bv7)
    requires s < 64 && s & 32 <= i < 64
    ensures Probe(Shifted(m, s & 32), i) == Probe(m, i - (s & 32))
  {
  }

  lemma Index32(s: bv7, i: bv7)
    requires s < 64 && s & 63 <= i < 64
    ensures s & 32 <= i && s & 31 <= i - (s & 32) < 64 && i - (s & 32) - (s & 31) == i - (s & 63)
  {
  }

  lemma UpTo32(m: bv64, s: bv7, i: bv7)
    requires s < 64 && s & 63 <= i < 64
    ensures Probe(Shifted(m, s & 63), i) == Probe(m, i - (s & 63))
  {
    hide Probe, Shifted;
    Index32(s, i);
    Merge32(m, s);
    Stage32(Shifted(m, s & 31), s, i);
    UpTo16(m, s, i - (s & 32));
  }

  lemma ProbeShifted(m: bv64, s: bv7, i: bv7)
    requires s <= i < 64
    ensures Probe(Shifted(m, s), i) == Probe(m, i - s)
  {
    hide Probe, Shifted;
    assert s & 63 == s;
    UpTo32(m, s, i);
  }

  lemma ProbeBelowShift(m: bv64, s: bv7, i: bv7)
    requires i < s < 64
    ensures Probe(Shifted(m, s), i) == 0
  {
  }

  lemma ShiftBit(m: bv64, s: bv7, i: bv7)
    requires s < 64 && i < 64
    ensures Bit(Shifted(m, s), i) <==> s <= i && Bit(m, i - s)
  {
    hide Probe, Shifted;
    if s <= i {
      ProbeShifted(m, s, i);
    } else {
      ProbeBelowShift(m, s, i);
    }
  }

  lemma OrProbe(m: bv64, j: bv7, i: bv7, w: bv64)
    requires j < 64 && i < 64 && w == m | (1 << j)
    ensures Probe(w, i) == if i == j then 1 else Probe(m, i)
  {
  }

  lemma OrBit(m: bv64, j: bv7, i: bv7)
    requires j < 64 && i < 64
    ensures Bit(WithBit(m, j), i) <==> i == j || Bit(m, i)
  {
    hide Probe;
    OrProbe(m, j, i, WithBit(m, j));
  }

  lemma SubtractIndex(i: bv7, s: bv7)
    requires s <= i < 64
    ensures (i - s) as nat == i as nat - s as nat
  {
  }

  /** `mask` and `max` stand for `seen`: the maximum bounds every number, and inside the window
      a bit is set exactly for the numbers in the set. */
  ghost predicate Represents(mask: bv64, max: nat, seen: set<int>) {
    && (forall n <- seen :: 0 <= n <= max)
    && (forall i: bv7 | i < 64 :: Bit(mask, i) <==> max - i as int in seen)
  }

  lemma SlideBit(mask: bv64, max: nat, seen: set<int>, s: bv7, i: bv7)
    requires Represents(mask, max, seen) && s < 64 && i < 64
    ensures Bit(Shifted(mask, s), i) <==> max + s as int - i as int in seen
  {
    hide Bit, Probe, Shifted, WithBit;
    ShiftBit(mask, s, i);
    if s <= i {
      SubtractIndex(i, s);
      assert Bit(mask, i - s) <==> max - (i - s) as int in seen;
    } else {
      assert max + s as int - i as int > max;
    }
  }

  lemma SlideRepresents(mask: bv64, max: nat, seen: set<int>, shift: nat)
    requires Represents(mask, max, seen) && 0 < shift < WINDOW
    ensures Represents(Shifted(mask, shift as bv7), max + shift, seen)
  {
    hide Bit, Probe, Shifted, WithBit;
    var s := shift as bv7;
    assert s as int == shift;
    forall i: bv7 | i < 64
      ensures Bit(Shifted(mask, s), i) <==> max + shift - i as int in seen
    {
      SlideBit(mask, max, seen, s, i);
    }
  }

  lemma ClearRepresents(mask: bv64, max: nat, seen: set<int>, n: nat)
    requires Represents(mask, max, seen)
    requires n >= max + WINDOW
    ensures Represents(0, n, seen)
  {
    assert forall i: bv7 | i < 64 :: !Bit(0, i) && n - i as int > max;
  }

  lemma MarkBit(mask: bv64, max: nat, seen: set<int>, idx: bv7, i: bv7)
    requires Represents(mask, max, seen) && idx < 64 && i < 64
    ensures Bit(WithBit(mask, idx), i) <==> max - i as int in seen + {max - idx as int}
  {
    hide Bit, Probe, WithBit;
    OrBit(mask, idx, i);
    assert Bit(mask, i) <==> max - i as int in seen;
    assert i as int == idx as int ==> i == idx;
  }

  lemma MarkRepresents(mask: bv64, max: nat, seen: set<int>, n: nat)
    requires Represents(mask, max, seen) && n <= max < n + WINDOW
    ensures Represents(WithBit(mask, (max - n) as bv7), max, seen + {n})
  {
    hide Bit, Probe, WithBit;
    var idx := (max - n) as bv7;
    assert max - idx as int == n;
    forall i: bv7 | i < 64
      ensures Bit(WithBit(mask, idx), i) <==> max - i as int in seen + {n}
    {
      MarkBit(mask, max, seen, idx, i);
    }
  }

  /** DTLS1_BITMAP with the set of numbers it stands for kept beside it. */
  class Bitmap {
    var mask: bv64
    var maxSeqNum: nat
    ghost var seen: set<int>

    ghost predicate Valid()
      reads this
    {
      Represents(mask, maxSeqNum, seen)
    }

    constructor ()
      ensures Valid() && seen == {} && maxSeqNum == 0
    {
      mask, maxSeqNum, seen := 0, 0, {};
      new;
      assert forall i: bv7 | i < 64 :: !Bit(0, i);
    }

    /** The memset in dtls1_set_read_state. */
    method Reset()
      modifies this
      ensures Valid() && seen == {} && maxSeqNum == 0
    {
      mask, maxSeqNum, seen := 0, 0, {};
      assert forall i: bv7 | i < 64 :: !Bit(0, i);
    }

    /** A record is discarded exactly when its number was recorded before or lies 64 or more
        below the maximum. */
    predicate ShouldDiscard(n: nat)
      requires Valid()
      reads this
      ensures ShouldDiscard(n) <==> n in seen || n + WINDOW <= maxSeqNum
    {
      if n > maxSeqNum then false
      else
        var idx := maxSeqNum - n;
        if idx >= WINDOW then true
        else
          assert Bit(mask, idx as bv7) <==> maxSeqNum - (idx as bv7) as int in seen;
          Bit(mask, idx as bv7)
    }

    /** Recording adds the number to the set, however far ahead it jumps. */
    method Record(n: nat)
      requires Valid() && !ShouldDiscard(n)
      modifies this
      ensures Valid() && seen == old(seen) + {n} && maxSeqNum == if n > old(maxSeqNum) then n else old(maxSeqNum)
    {
      hide Bit, Probe, Shifted, WithBit, Represents;
      if n > maxSeqNum {
        var shift := n - maxSeqNum;
        if shift >= WINDOW {
          ClearRepresents(mask, maxSeqNum, seen, n);
          mask := 0;
        } else {
          SlideRepresents(mask, maxSeqNum, seen, shift);
          mask := Shifted(mask, shift as bv7);
        }
        maxSeqNum := n;
      }
      var idx := maxSeqNum - n;
      if idx < WINDOW {
        MarkRepresents(mask, maxSeqNum, seen, n);
        mask := WithBit(mask, idx as bv7);
      }
      seen := seen + {n};
    }

    /** One epoch's records: each number is checked and, if fresh, recorded. */
    method Filter(numbers: seq<nat>) returns (accepted: seq<nat>)
      requires Valid()
      modifies this
      ensures Valid() && accepted == Accepted(numbers, old(seen), old(maxSeqNum))
      ensures forall n: nat :: n in seen <==> n in old(seen) || n in accepted
    {
      hide Represents, Accepted;
      accepted := [];
      assert numbers[0..] == numbers;
      for i := 0 to |numbers|
        invariant Valid()
        invariant accepted + Accepted(numbers[i..], seen, maxSeqNum) == Accepted(numbers, old(seen), old(maxSeqNum))
        invariant forall n: nat :: n in seen <==> n in old(seen) || n in accepted
      {
        AcceptNext(numbers, i, seen, maxSeqNum);
        if !ShouldDiscard(numbers[i]) {
          Record(numbers[i]);
          accepted := accepted + [numbers[i]];
        }
      }
      AcceptEnds(numbers, seen, maxSeqNum);
    }
  }

  // ---- What has arrived and what is remembered of it ----

  /** Of the numbers that have arrived those are remembered that are not 64 or more below the highest. */
  ghost predicate Remembers(seen: set<int>, max: nat, arrived: set<int>) {
    && seen <= arrived && (forall n <- seen :: 0 <= n <= max) && (if seen == {} then max == 0 else max in seen)
    && forall n <- arrived :: n in seen || n + 64 <= max
  }

  /** A number that has arrived, or is 64 or more below one that has, and no other, is turned away. */
  lemma TurnedAway(seen: set<int>, max: nat, arrived: set<int>, n: nat)
    requires Remembers(seen, max, arrived)
    ensures n in seen || n + WINDOW <= max <==> n in arrived || exists m <- arrived :: n + 64 <= m
  {
    if n + 64 <= max {
      assert max in arrived;
    }
  }

  lemma OneMoreArrived(seen: set<int>, max: nat, arrived: set<int>, n: nat)
    requires Remembers(seen, max, arrived)
    ensures if n in seen || n + WINDOW <= max then Remembers(seen, max, arrived + {n})
      else Remembers(seen + {n}, if n > max then n else max, arrived + {n})
  {
  }

  /** The filter with unbounded memory: drop what was seen before and what is too old to tell. */
  function Accepted(numbers: seq<nat>, seen: set<int>, max: nat): seq<nat> {
    if numbers == [] then []
    else
      var n := numbers[0];
      if n in seen || n + WINDOW <= max then Accepted(numbers[1..], seen, max)
      else [n] + Accepted(numbers[1..], seen + {n}, if n > max then n else max)
  }

  lemma AcceptNext(numbers: seq<nat>, i: nat, seen: set<int>, max: nat)
    requires i < |numbers|
    ensures var n := numbers[i];
      Accepted(numbers[i..], seen, max) ==
        if n in seen || n + WINDOW <= max then Accepted(numbers[i + 1..], seen, max)
        else [n] + Accepted(numbers[i + 1..], seen + {n}, if n > max then n else max)
  {
    assert numbers[i..][1..] == numbers[i + 1..];
  }

  lemma AcceptEnds(numbers: seq<nat>, seen: set<int>, max: nat)
    ensures Accepted(numbers[|numbers|..], seen, max) == []
  {
  }

  /** No number is accepted twice over a whole epoch, nor one accepted earlier. */
  lemma {:induction false} AcceptedOnce(numbers: seq<nat>, seen: set<int>, max: nat)
    ensures forall n <- Accepted(numbers, seen, max) :: n !in seen && n in numbers
    ensures forall i, j | 0 <= i < j < |Accepted(numbers, seen, max)| ::
      Accepted(numbers, seen, max)[i] != Accepted(numbers, seen, max)[j]
  {
    if numbers != [] {
      var n, rest := numbers[0], numbers[1..];
      if n in seen || n + WINDOW <= max {
        AcceptedOnce(rest, seen, max);
      } else {
        AcceptedOnce(rest, seen + {n}, if n > max then n else max);
        var later := Accepted(rest, seen + {n}, if n > max then n else max);
        var out := Accepted(numbers, seen, max);
        assert out == [n] + later;
      }
      assert forall k <- rest :: k in numbers;
    }
  }

  /** Numbers that only rise are all accepted, whatever the gaps: in-order delivery is never
      taken for a replay. */
  lemma {:induction false} RisingAllAccepted(numbers: seq<nat>, seen: set<int>, max: nat)
    requires forall n <- seen :: n <= max
    requires forall i, j | 0 <= i < j < |numbers| :: numbers[i] < numbers[j]
    requires numbers != [] ==> numbers[0] > max || (numbers[0] == max && max !in seen)
    ensures Accepted(numbers, seen, max) == numbers
  {
    if numbers != [] {
      var n := numbers[0];
      RisingAllAccepted(numbers[1..], seen + {n}, n);
    }
  }
}
