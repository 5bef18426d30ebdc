/** The record numbers a DTLS sender uses (section 4.1 of RFC 6347): the pair of epoch and 48-bit
    sequence number stamped on each record by dtls_seal_record, across the epoch change of
    dtls1_set_write_state. */
module RecordNumbers {
  import opened Common

  const LIMIT := 0x1_0000_0000_0000

  /** The counters, and for each whether it has wrapped around to zero. `last` continues the
      previous epoch. */
  datatype Numbers = Numbers(epoch: nat, cur: nat, last: nat, ghost curWrapped: bool, ghost lastWrapped: bool) {
    predicate WellFormed() {
      cur < LIMIT && last < LIMIT
    }
  }

  ghost const START := Numbers(0, 0, 0, false, false)

  datatype Op = Seal(previous: bool) | ChangeWriteState

  /** ssl_record_sequence_update on six bytes: the increment that wraps to zero is reported as a
      failure, but the counter has wrapped all the same. */
  function Bump(n: nat): (r: (bool, nat))
    requires n < LIMIT
    ensures r.1 < LIMIT
  {
    (n + 1 != LIMIT, if n + 1 == LIMIT then 0 else n + 1)
  }

  ghost function Step(s: Numbers, op: Op): (r: (Option<(nat, nat)>, Numbers))
    requires s.WellFormed() && (op.Seal? && op.previous ==> s.epoch >= 1)
    ensures r.1.WellFormed()
  {
    match op
    case ChangeWriteState => (None, Numbers(s.epoch + 1, 0, s.cur, false, s.curWrapped))
    case Seal(previous) =>
      if previous then
        var (ok, next) := Bump(s.last);
        (if ok then Some((s.epoch - 1, s.last)) else None, s.(last := next, lastWrapped := s.lastWrapped || !ok))
      else
        var (ok, next) := Bump(s.cur);
        (if ok then Some((s.epoch, s.cur)) else None, s.(cur := next, curWrapped := s.curWrapped || !ok))
  }

  /** The previous epoch is only used once there is one. */
  ghost predicate Legal(s: Numbers, ops: seq<Op>)
    requires s.WellFormed()
    decreases |ops|
  {
    ops == [] ||
    ((ops[0].Seal? && ops[0].previous ==> s.epoch >= 1) && Legal(Step(s, ops[0]).1, ops[1..]))
  }

  /** The numbers of the records sealed successfully, in order. */
  ghost function Sealed(s: Numbers, ops: seq<Op>): seq<(nat, nat)>
    requires s.WellFormed() && Legal(s, ops)
    decreases |ops|
  {
    if ops == [] then []
    else
      var (out, next) := Step(s, ops[0]);
      (if out.Some? then [out.value] else []) + Sealed(next, ops[1..])
  }

  /** No seal is attempted on a counter after it has reported overflow. */
  ghost predicate StopsAtOverflow(s: Numbers, ops: seq<Op>)
    requires s.WellFormed() && Legal(s, ops)
    decreases |ops|
  {
    ops == [] ||
    ((ops[0].Seal? ==> !(if ops[0].previous then s.lastWrapped else s.curWrapped)) &&
     StopsAtOverflow(Step(s, ops[0]).1, ops[1..]))
  }

  /** `used` is every number handed out so far, given the counters. */
  ghost predicate Accounts(s: Numbers, used: iset<(nat, nat)>) {
    && (s.curWrapped ==> s.cur == 0) && (s.lastWrapped ==> s.last == 0)
    && forall e: nat, k: nat {:trigger (e, k) in used} ::
      && (e > s.epoch ==> (e, k) !in used)
      && (e == s.epoch ==> ((e, k) in used <==> k < if s.curWrapped then LIMIT - 1 else s.cur))
      && (e + 1 == s.epoch ==> ((e, k) in used <==> k < if s.lastWrapped then LIMIT - 1 else s.last))
  }

  ghost predicate NoRepeat(out: seq<(nat, nat)>, used: iset<(nat, nat)>) {
    && (forall i | 0 <= i < |out| :: out[i] !in used)
    && (forall i, j | 0 <= i < j < |out| :: out[i] != out[j])
  }

  lemma {:induction false} SealedFrom(s: Numbers, ops: seq<Op>, used: iset<(nat, nat)>)
    requires s.WellFormed() && Legal(s, ops) && Accounts(s, used)
    ensures NoRepeat(Sealed(s, ops), used) <==> StopsAtOverflow(s, ops)
    decreases |ops|
  {
    if ops != [] {
      var (out, next) := Step(s, ops[0]);
      var rest := Sealed(next, ops[1..]);
      if ops[0].Seal? && (if ops[0].previous then s.lastWrapped else s.curWrapped) {
        assert out.value in used && Sealed(s, ops)[0] == out.value;
      } else if out.Some? {
        SealedFrom(next, ops[1..], used + iset{out.value});
        NoRepeatCons(out.value, rest, used);
      } else {
        SealedFrom(next, ops[1..], used);
        assert Sealed(s, ops) == rest;
      }
    }
  }

  lemma NoRepeatCons(x: (nat, nat), rest: seq<(nat, nat)>, used: iset<(nat, nat)>)
    ensures NoRepeat([x] + rest, used) <==> x !in used && NoRepeat(rest, used + iset{x})
  {
    var all := [x] + rest;
    assert forall i | 0 < i < |all| :: all[i] == rest[i - 1];
    assert forall i | 0 <= i < |rest| :: rest[i] == all[i + 1];
    if NoRepeat(all, used) {
      forall i | 0 <= i < |rest| ensures rest[i] !in used + iset{x} {
        assert all[0] != all[i + 1];
      }
      assert x == all[0];
    }
  }

  lemma StartAccounts()
    ensures Accounts(START, iset{})
  {
  }

  /** Over any interleaving of seals in the current epoch, seals in the previous epoch and epoch
      changes, all records sealed successfully have distinct numbers, if and only if nobody seals
      again with a counter that has reported overflow. */
  lemma NumbersNeverReused(ops: seq<Op>)
    requires Legal(START, ops)
    ensures NoRepeat(Sealed(START, ops), iset{}) <==> StopsAtOverflow(START, ops)
  {
    StartAccounts();
    SealedFrom(START, ops, iset{});
  }

  /** How many records are sealed in epoch `e`, from a sender in epoch `epoch` on. */
  ghost function SealsIn(epoch: nat, ops: seq<Op>, e: nat): nat
    decreases |ops|
  {
    if ops == [] then 0
    else match ops[0]
      case ChangeWriteState => SealsIn(epoch + 1, ops[1..], e)
      case Seal(previous) =>
        (if e == (if previous then epoch - 1 else epoch) then 1 else 0) + SealsIn(epoch, ops[1..], e)
  }

  /** Fewer than 2^48 records in each epoch never come near the overflow, however many epochs there
      are: a counter has at most as many ahead of it as its epoch has records. */
  lemma {:induction false} FewPerEpoch(s: Numbers, ops: seq<Op>)
    requires s.WellFormed() && Legal(s, ops) && !s.curWrapped && !s.lastWrapped
    requires s.cur + SealsIn(s.epoch, ops, s.epoch) < LIMIT
    requires s.epoch > 0 ==> s.last + SealsIn(s.epoch, ops, s.epoch - 1) < LIMIT
    requires forall e: nat | e > s.epoch :: SealsIn(s.epoch, ops, e) < LIMIT
    ensures StopsAtOverflow(s, ops)
    decreases |ops|
  {
    if ops != [] {
      var next := Step(s, ops[0]).1;
      forall e: nat | e > next.epoch
        ensures SealsIn(next.epoch, ops[1..], e) < LIMIT
      {
        assert SealsIn(s.epoch, ops, e) < LIMIT;
      }
      assert SealsIn(s.epoch, ops, s.epoch + 1) < LIMIT;
      FewPerEpoch(next, ops[1..]);
    }
  }

  lemma FewSealsNeverOverflow(ops: seq<Op>)
    requires Legal(START, ops) && forall e: nat :: SealsIn(0, ops, e) < 0x1_0000_0000_0000
    ensures StopsAtOverflow(START, ops) && NoRepeat(Sealed(START, ops), iset{})
  {
    FewPerEpoch(START, ops);
    NumbersNeverReused(ops);
  }

  function Seals(n: nat): (ops: seq<Op>)
    ensures |ops| == n && forall i | 0 <= i < n :: ops[i] == Seal(false)
  {
    seq(n, _ => Seal(false))
  }

  /** A sender that goes on after the overflow uses a number again: 2^48 records and one more. */
  lemma OverflowReuses()
    ensures var ops := Seals(0x1_0000_0000_0000 + 1); Legal(START, ops) && !NoRepeat(Sealed(START, ops), iset{})
  {
    SealsOverflow(START, LIMIT + 1);
    NumbersNeverReused(Seals(LIMIT + 1));
  }

  lemma {:induction false} SealsOverflow(s: Numbers, n: nat)
    requires s.WellFormed()
    ensures Legal(s, Seals(n)) && (StopsAtOverflow(s, Seals(n)) <==> n == 0 || (!s.curWrapped && s.cur + n <= LIMIT))
    decreases n
  {
    if n > 0 {
      assert Seals(n)[1..] == Seals(n - 1);
      SealsOverflow(Step(s, Seal(false)).1, n - 1);
    }
  }
}
