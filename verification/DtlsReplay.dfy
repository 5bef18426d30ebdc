/** Replay protection over whole runs of the receiver: which records it turns away, told by what has
    arrived and not by what it remembers. */
module DtlsReplay {
  import opened Common
  import opened HandshakeWire
  import opened DtlsReceive
  import opened DtlsDelivery
  import opened ReplayWindow

  /** The record was sent in the receiver's epoch and is not too long. */
  predicate Arrives(c: Reader, r: Record) {
    r.epoch == c.rEpoch && |r.payload| <= 16384
  }

  /** The numbers of all records that have arrived for the epoch by the end of the run, whatever became
      of them, if `before` had arrived at its beginning. */
  ghost function Arrivals(c: Reader, before: set<int>, events: seq<Event>, maxLen: nat): set<int>
    requires c.ring.WellFormed()
    decreases |events|
  {
    if events == [] then before
    else
      var next := Step(c, events[0], maxLen).1;
      var now :=
        if next.rEpoch != c.rEpoch then {}
        else if events[0].Deliver? && Arrives(c, events[0].record) then before + {WindowNumber(events[0].record)}
        else before;
      Arrivals(next, now, events[1..], maxLen)
  }

  ghost predicate Keeps(c: Reader, arrived: set<int>) {
    Remembers(c.seen, c.max, arrived)
  }

  lemma KeepsStep(c: Reader, arrived: set<int>, e: Event, maxLen: nat)
    requires c.ring.WellFormed() && Keeps(c, arrived) && Step(c, e, maxLen).0
    ensures var next := Step(c, e, maxLen).1;
      Keeps(next, if next.rEpoch != c.rEpoch then {}
        else if e.Deliver? && Arrives(c, e.record) then arrived + {WindowNumber(e.record)} else arrived)
  {
    hide OpenFragments, HasUnprocessed, CurrentComplete, CurrentMessage, NextMessage;
    if e.Deliver? {
      OneMoreArrived(c.seen, c.max, arrived, WindowNumber(e.record));
    }
  }

  lemma {:induction false} KeepsRun(c: Reader, arrived: set<int>, events: seq<Event>, maxLen: nat)
    requires c.ring.WellFormed() && Keeps(c, arrived) && Run(c, events, maxLen).0
    ensures Keeps(Run(c, events, maxLen).1, Arrivals(c, arrived, events, maxLen))
    decreases |events|
  {
    hide Step, Keeps, Arrives;
    if events != [] {
      KeepsStep(c, arrived, events[0], maxLen);
      var next := Step(c, events[0], maxLen).1;
      var now :=
        if next.rEpoch != c.rEpoch then {}
        else if events[0].Deliver? && Arrives(c, events[0].record) then arrived + {WindowNumber(events[0].record)}
        else arrived;
      KeepsRun(next, now, events[1..], maxLen);
    }
  }

  /** Exactly which records are turned away after any run: those of another epoch, those whose number has
      arrived before, and those 64 or more below a number that has. */
  lemma DroppedExactly(c0: Reader, arrived: set<int>, events: seq<Event>, r: Record, maxLen: nat)
    requires c0.ring.WellFormed() && Keeps(c0, arrived) && Run(c0, events, maxLen).0
    ensures var c := Run(c0, events, maxLen).1;
      var all := Arrivals(c0, arrived, events, maxLen);
      (OpenHandshake(c, r, maxLen) == (Discard, c)) ==
        (r.epoch != c.rEpoch || WindowNumber(r) in all || exists m <- all :: WindowNumber(r) + 64 <= m)
  {
    hide Run, Arrivals, OpenFragments;
    KeepsRun(c0, arrived, events, maxLen);
    var c := Run(c0, events, maxLen).1;
    var all := Arrivals(c0, arrived, events, maxLen);
    TurnedAway(c.seen, c.max, all, WindowNumber(r));
    RecordingShows(c, r, maxLen);
  }

  /** A record that is not turned away leaves its number behind. */
  lemma RecordingShows(c: Reader, r: Record, maxLen: nat)
    requires c.ring.WellFormed()
    ensures (OpenHandshake(c, r, maxLen) == (Discard, c)) ==
      (r.epoch != c.rEpoch || WindowNumber(r) in c.seen || WindowNumber(r) + WINDOW <= c.max)
  {
    hide OpenFragments;
  }

  // ---- Never twice ----

  /** Whatever carries this number is turned away. */
  ghost predicate Spent(c: Reader, n: int) {
    Bounded(c) && (n in c.seen || n + WINDOW <= c.max)
  }

  ghost predicate Bounded(c: Reader) {
    forall n <- c.seen :: n <= c.max
  }

  lemma SpentStep(c: Reader, e: Event, n: int, maxLen: nat)
    requires c.ring.WellFormed() && Bounded(c)
    ensures var next := Step(c, e, maxLen).1;
      && Bounded(next) && c.rEpoch <= next.rEpoch
      && (Spent(c, n) && next.rEpoch == c.rEpoch ==> Spent(next, n))
      && (e.Deliver? && Arrives(c, e.record) && WindowNumber(e.record) == n ==> Spent(next, n) && next.rEpoch == c.rEpoch)
  {
    hide OpenFragments, HasUnprocessed, CurrentComplete, CurrentMessage, NextMessage;
  }

  lemma {:induction false} SpentRun(c: Reader, events: seq<Event>, n: int, maxLen: nat)
    requires c.ring.WellFormed() && Bounded(c)
    ensures var end := Run(c, events, maxLen).1;
      Bounded(end) && c.rEpoch <= end.rEpoch && (Spent(c, n) && end.rEpoch == c.rEpoch ==> Spent(end, n))
    decreases |events|
  {
    hide Step, Spent, Bounded;
    if events != [] {
      SpentStep(c, events[0], n, maxLen);
      SpentRun(Step(c, events[0], maxLen).1, events[1..], n, maxLen);
    }
  }

  /** No record is taken twice: once one of its epoch and number has been delivered after any run, taken or
      not, it is turned away for as long as the epoch lasts, and changes nothing. */
  lemma NeverTakenTwice(c0: Reader, before: seq<Event>, r: Record, after: seq<Event>, again: Record, maxLen: nat)
    requires c0.ring.WellFormed() && forall n <- c0.seen :: n <= c0.max
    requires Arrives(Run(c0, before, maxLen).1, r) && again.epoch == r.epoch && again.num == r.num
    requires Run(Step(Run(c0, before, maxLen).1, Deliver(r), maxLen).1, after, maxLen).1.rEpoch == r.epoch
    ensures var c := Run(Step(Run(c0, before, maxLen).1, Deliver(r), maxLen).1, after, maxLen).1;
      OpenHandshake(c, again, maxLen) == (Discard, c)
  {
    hide Run, Step;
    var n := WindowNumber(r);
    SpentRun(c0, before, n, maxLen);
    var mid := Run(c0, before, maxLen).1;
    SpentStep(mid, Deliver(r), n, maxLen);
    SpentRun(Step(mid, Deliver(r), maxLen).1, after, n, maxLen);
  }
}
