/** The saturating reference count. refcount_lock.c updates it under a lock; refcount_c11.c with a
    compare-and-exchange loop. Every interleaving of the loops is one order of the locked operations. */
module Refcount {
  import opened Common

  /** CRYPTO_REFCOUNT_MAX, at which the count stays for ever. */
  const MAX := 0xFFFF_FFFF

  datatype Op = Inc | Dec

  /** What a call comes to: `Zero` and `NotZero` are the 1 and the 0 of
      CRYPTO_refcount_dec_and_test_zero, and decrementing zero aborts. */
  datatype Result = Void | Zero | NotZero | Abort

  // ---- The locked operations ----

  function CountAfter(op: Op, count: nat): nat {
    match op
    case Inc => if count < MAX then count + 1 else count
    case Dec => if 0 < count < MAX then count - 1 else count
  }

  function ResultOf(op: Op, count: nat): Result {
    if op == Inc then Void else if count == 0 then Abort else if count == 1 then Zero else NotZero
  }

  /** refcount_lock.c: the lock makes each call one step. */
  class LockedCount {
    var count: nat

    constructor (count: nat)
      requires count <= MAX
      ensures this.count == count
    {
      this.count := count;
    }

    method Increment()
      requires count <= MAX
      modifies this
      ensures count == CountAfter(Inc, old(count)) && count <= MAX
    {
      if count < MAX {
        count := count + 1;
      }
    }

    method DecrementAndTestZero() returns (r: Result)
      requires count <= MAX
      modifies this
      ensures count == CountAfter(Dec, old(count)) && r == ResultOf(Dec, old(count)) && count <= MAX
    {
      if count == 0 {
        return Abort;
      }
      if count < MAX {
        count := count - 1;
      }
      r := if count == 0 then Zero else NotZero;
    }
  }

  // ---- The compare-and-exchange loops, one atomic access at a time ----

  /** Where a thread is: outside, before its first load, in the loop with the value it expects, or
      about to return. */
  datatype Pc = Idle | Begun(op: Op) | Looping(op: Op, expected: nat) | Leaving(op: Op, result: Result)

  datatype Call = Call(op: Op, result: Result)

  /** A thread and the calls it has returned from. */
  datatype Thread = Thread(pc: Pc, returned: seq<Call>)

  /** A call as it took effect. */
  datatype Effect = Effect(thread: nat, call: Call)

  /** The shared count, the threads, and in what order the calls have taken effect. */
  datatype System = System(count: nat, threads: seq<Thread>, effects: seq<Effect>)

  datatype Action = Start(op: Op) | Load | Exchange(spurious: bool) | Leave

  /** A value that ends the loop without an exchange. */
  predicate Decides(op: Op, expected: nat) {
    expected == MAX || (op == Dec && expected == 0)
  }

  predicate Enabled(s: System, t: nat, a: Action) {
    t < |s.threads| &&
    match a
    case Start(_) => s.threads[t].pc == Idle
    case Load => s.threads[t].pc.Begun?
    case Exchange(_) => s.threads[t].pc.Looping?
    case Leave => s.threads[t].pc.Leaving?
  }

  function Moved(s: System, t: nat, pc: Pc): System
    requires t < |s.threads|
  {
    s.(threads := s.threads[t := s.threads[t].(pc := pc)])
  }

  /** Reading the count into `expected`. A value that ends the loop is where the call takes effect. */
  function Read(s: System, t: nat, op: Op): System
    requires t < |s.threads|
  {
    var after := Moved(s, t, Looping(op, s.count));
    if Decides(op, s.count) then after.(effects := s.effects + [Effect(t, Call(op, ResultOf(op, s.count)))]) else after
  }

  /** A weak compare-and-exchange may fail though the values are equal; when it fails it reads the
      count. */
  function After(s: System, t: nat, a: Action): System
    requires Enabled(s, t, a)
  {
    var thread := s.threads[t];
    match a
    case Start(op) => Moved(s, t, Begun(op))
    case Load => Read(s, t, thread.pc.op)
    case Exchange(spurious) =>
      var op, expected := thread.pc.op, thread.pc.expected;
      if Decides(op, expected) then Moved(s, t, Leaving(op, ResultOf(op, expected)))
      else if s.count != expected || spurious then Read(s, t, op)
      else
        var value := if op == Inc then expected + 1 else expected - 1;
        var result := if op == Inc then Void else if value == 0 then Zero else NotZero;
        Moved(s, t, Leaving(op, result)).(count := value, effects := s.effects + [Effect(t, Call(op, result))])
    case Leave =>
      s.(threads := s.threads[t := Thread(Idle, thread.returned + [Call(thread.pc.op, thread.pc.result)])])
  }

  // ---- Linearizability ----

  /** The effects are calls of the locked operations, one after the other, from `count` to `end`. */
  predicate Legal(count: nat, effects: seq<Effect>, end: nat)
    decreases |effects|
  {
    if effects == [] then count == end
    else
      var c := effects[0].call;
      c.result == ResultOf(c.op, count) && Legal(CountAfter(c.op, count), effects[1..], end)
  }

  function CallsOf(effects: seq<Effect>, t: nat): seq<Call> {
    if effects == [] then []
    else (if effects[0].thread == t then [effects[0].call] else []) + CallsOf(effects[1..], t)
  }

  /** The call under way, if it has already taken effect. */
  function Pending(pc: Pc): seq<Call> {
    match pc
    case Leaving(op, result) => [Call(op, result)]
    case Looping(op, expected) => if Decides(op, expected) then [Call(op, ResultOf(op, expected))] else []
    case _ => []
  }

  /** The order of effects is a locked execution, and each thread's calls took effect once each, in
      its own order, with the results it got. */
  predicate Linearized(init: nat, s: System) {
    && s.count <= MAX && Legal(init, s.effects, s.count)
    && forall t | 0 <= t < |s.threads| :: CallsOf(s.effects, t) == s.threads[t].returned + Pending(s.threads[t].pc)
  }

  lemma {:induction false} LegalAppend(count: nat, effects: seq<Effect>, mid: nat, e: Effect)
    requires Legal(count, effects, mid) && e.call.result == ResultOf(e.call.op, mid)
    ensures Legal(count, effects + [e], CountAfter(e.call.op, mid))
    decreases |effects|
  {
    if effects == [] {
      assert [] + [e] == [e] && [e][1..] == [];
    } else {
      LegalAppend(CountAfter(effects[0].call.op, count), effects[1..], mid, e);
      assert (effects + [e])[1..] == effects[1..] + [e];
    }
  }

  lemma {:induction false} CallsAppend(effects: seq<Effect>, e: Effect, t: nat)
    ensures CallsOf(effects + [e], t) == CallsOf(effects, t) + if e.thread == t then [e.call] else []
    decreases |effects|
  {
    if effects == [] {
      assert [] + [e] == [e] && [e][1..] == [];
    } else {
      CallsAppend(effects[1..], e, t);
      assert (effects + [e])[1..] == effects[1..] + [e];
    }
  }

  lemma TakesEffect(init: nat, s: System, next: System, t: nat, e: Effect)
    requires Linearized(init, s) && t < |s.threads| && e.thread == t && Pending(s.threads[t].pc) == []
    requires next.effects == s.effects + [e] && next.count == CountAfter(e.call.op, s.count) && e.call.result == ResultOf(e.call.op, s.count)
    requires |next.threads| == |s.threads| && next.threads == s.threads[t := s.threads[t].(pc := next.threads[t].pc)] && Pending(next.threads[t].pc) == [e.call]
    ensures Linearized(init, next)
  {
    hide Legal, CallsOf, Pending;
    LegalAppend(init, s.effects, s.count, e);
    forall u | 0 <= u < |next.threads|
      ensures CallsOf(next.effects, u) == next.threads[u].returned + Pending(next.threads[u].pc)
    {
      CallsAppend(s.effects, e, u);
    }
  }

  lemma StepLinearizes(init: nat, s: System, t: nat, a: Action)
    requires Linearized(init, s) && Enabled(s, t, a)
    ensures Linearized(init, After(s, t, a))
  {
    hide Legal, CallsOf;
    var next := After(s, t, a);
    if |next.effects| > |s.effects| {
      TakesEffect(init, s, next, t, next.effects[|s.effects|]);
    }
  }

  datatype Turn = Turn(thread: nat, action: Action)

  predicate IsRun(s: System, turns: seq<Turn>)
    decreases |turns|
  {
    turns != [] ==> Enabled(s, turns[0].thread, turns[0].action) && IsRun(After(s, turns[0].thread, turns[0].action), turns[1..])
  }

  function End(s: System, turns: seq<Turn>): System
    requires IsRun(s, turns)
    decreases |turns|
  {
    if turns == [] then s else End(After(s, turns[0].thread, turns[0].action), turns[1..])
  }

  /** Any number of threads, any interleaving, any spurious failures. */
  lemma {:induction false} RunsLinearize(init: nat, s: System, turns: seq<Turn>)
    requires Linearized(init, s) && IsRun(s, turns)
    ensures Linearized(init, End(s, turns))
    decreases |turns|
  {
    hide Linearized, Enabled, After;
    if turns != [] {
      StepLinearizes(init, s, turns[0].thread, turns[0].action);
      RunsLinearize(init, After(s, turns[0].thread, turns[0].action), turns[1..]);
    }
  }

  lemma StartLinearized(count: nat, s: System)
    requires count <= MAX && s.count == count && s.effects == []
    requires forall t | 0 <= t < |s.threads| :: s.threads[t] == Thread(Idle, [])
    ensures Linearized(count, s)
  {
  }

  // ---- What a locked execution means ----

  function Increments(effects: seq<Effect>): nat {
    if effects == [] then 0 else (if effects[0].call.op == Inc then 1 else 0) + Increments(effects[1..])
  }

  /** Decrements that did not abort. */
  function Decrements(effects: seq<Effect>): nat {
    if effects == [] then 0
    else (if effects[0].call.op == Dec && effects[0].call.result != Abort then 1 else 0) + Decrements(effects[1..])
  }

  /** The count is exact until it saturates, and then stays. */
  lemma {:induction false} CountIsExact(count: nat, effects: seq<Effect>, end: nat)
    requires count <= 0xFFFF_FFFF && Legal(count, effects, end)
    ensures end <= 0xFFFF_FFFF && (end < 0xFFFF_FFFF ==> end == count + Increments(effects) - Decrements(effects))
    ensures count == 0xFFFF_FFFF ==> end == 0xFFFF_FFFF
    decreases |effects|
  {
    if effects != [] {
      var c := effects[0].call;
      CountIsExact(CountAfter(c.op, count), effects[1..], end);
    }
  }

  /** The count just before an effect. */
  function CountBefore(count: nat, effects: seq<Effect>, i: nat): nat
    requires i <= |effects|
  {
    if i == 0 then count else CountAfter(effects[i - 1].call.op, CountBefore(count, effects, i - 1))
  }

  lemma {:induction false} LegalAt(count: nat, effects: seq<Effect>, end: nat, i: nat)
    requires Legal(count, effects, end) && i < |effects|
    ensures effects[i].call.result == ResultOf(effects[i].call.op, CountBefore(count, effects, i))
    decreases i
  {
    if i > 0 {
      LegalAt(CountAfter(effects[0].call.op, count), effects[1..], end, i - 1);
      CountBeforeTail(count, effects, i);
    }
  }

  lemma {:induction false} CountBeforeTail(count: nat, effects: seq<Effect>, i: nat)
    requires 0 < i <= |effects|
    ensures CountBefore(count, effects, i) == CountBefore(CountAfter(effects[0].call.op, count), effects[1..], i - 1)
    decreases i
  {
    if i > 1 {
      CountBeforeTail(count, effects, i - 1);
    }
  }

  /** In every run a decrement returns 1 exactly when it is the one that takes the count to zero. */
  lemma ZeroExactlyOnReachingZero(init: nat, s: System, turns: seq<Turn>, i: nat)
    requires Linearized(init, s) && IsRun(s, turns) && i < |End(s, turns).effects|
    ensures var effects := End(s, turns).effects;
      var before := CountBefore(init, effects, i);
      effects[i].call.result == Zero <==>
        effects[i].call.op == Dec && before > 0 && CountAfter(effects[i].call.op, before) == 0
  {
    hide IsRun, End;
    RunsLinearize(init, s, turns);
    LegalAt(init, End(s, turns).effects, End(s, turns).count, i);
  }

  /** In every run the count is what it was plus the increments less the decrements, or saturated. */
  lemma RunsCountExactly(init: nat, s: System, turns: seq<Turn>)
    requires init <= 0xFFFF_FFFF && Linearized(init, s) && IsRun(s, turns)
    ensures var end := End(s, turns);
      end.count == 0xFFFF_FFFF || end.count == init + Increments(end.effects) - Decrements(end.effects)
  {
    hide IsRun, End;
    RunsLinearize(init, s, turns);
    CountIsExact(init, End(s, turns).effects, End(s, turns).count);
  }
}
