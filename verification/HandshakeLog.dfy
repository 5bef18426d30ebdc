/** What one side of a handshake has done and seen, in order: the ground on which its safety stands,
    whoever the peer is and whatever it sends. */
module HandshakeLog {
  import opened HandshakeScript

  /** The world answered a step taken in a state; an item was put into the flight; a message was taken;
      the read keys changed. */
  datatype Entry<S> = Answered(at: S, answer: Answer) | Said(item: Item) | Heard(m: Msg) | KeysChanged

  ghost function MessageOf<S>(e: Entry<S>): seq<Msg> {
    match e
    case Said(i) => MessageIn(i)
    case Heard(m) => [m]
    case _ => []
  }

  /** The transcript a log stands for. */
  ghost function Hashed<S>(log: seq<Entry<S>>): seq<Msg> {
    if log == [] then [] else Hashed(log[..|log| - 1]) + MessageOf(log[|log| - 1])
  }

  lemma HashedGrows<S>(log: seq<Entry<S>>, e: Entry<S>)
    ensures Hashed(log + [e]) == Hashed(log) + MessageOf(e)
  {
    assert (log + [e])[..|log|] == log;
  }

  /** The message flow a log of side `w` stands for; its peer's keys are in use from its ChangeCipherSpec on. */
  ghost function Flow<S>(w: Who, log: seq<Entry<S>>): seq<Event> {
    if log == [] then [] else Flow(w, log[..|log| - 1]) + EventIn(w, log[|log| - 1])
  }

  ghost function EventIn<S>(w: Who, e: Entry<S>): seq<Event> {
    match e
    case Answered(_, _) => []
    case Said(i) => [EventOf(w, i)]
    case Heard(m) => [Event(Peer(w), KindOf(m))]
    case KeysChanged => [Event(Peer(w), ChangeCipherSpec)]
  }

  lemma FlowGrows<S>(w: Who, log: seq<Entry<S>>, e: Entry<S>)
    ensures Flow(w, log + [e]) == Flow(w, log) + EventIn(w, e)
  {
    assert (log + [e])[..|log|] == log;
  }

  lemma {:induction false} FlowSaid<S>(w: Who, log: seq<Entry<S>>, items: seq<Item>)
    ensures Flow(w, log + SaidAll(items)) == Flow(w, log) + Events(w, items)
    decreases |items|
  {
    if items == [] {
      assert log + SaidAll<S>(items) == log;
      assert Flow(w, log) + [] == Flow(w, log);
    } else {
      assert log + SaidAll<S>(items) == log + [Said(items[0])] + SaidAll(items[1..]);
      FlowSaid(w, log + [Said(items[0])], items[1..]);
      FlowGrows(w, log, Said(items[0]));
      Assoc(Flow(w, log), [EventOf(w, items[0])], Events(w, items[1..]));
    }
  }

  ghost function SaidAll<S>(items: seq<Item>): (entries: seq<Entry<S>>)
    ensures |entries| == |items| && forall k | 0 <= k < |items| :: entries[k] == Said(items[k])
  {
    seq(|items|, i requires 0 <= i < |items| => Said(items[i]))
  }

  lemma NothingSaid<S>(log: seq<Entry<S>>)
    ensures SaidAll<S>([]) == [] && log + [] == log
  {
  }

  lemma OneSaid<S>(i: Item)
    ensures Messages([i]) == MessageIn(i) && SaidAll<S>([i]) == [Said(i)]
  {
    JustOne(i);
  }

  /** One more item in a flight: in the queue, in the transcript and on record. */
  lemma Extended<S>(items: seq<Item>, i: Item, o: seq<Item>, t: seq<Msg>, l: seq<Entry<S>>)
    ensures o + (items + [i]) == o + items + [i]
    ensures t + Messages(items + [i]) == t + Messages(items) + MessageIn(i)
    ensures l + SaidAll(items + [i]) == l + SaidAll(items) + [Said(i)]
  {
    hide Messages;
    MessagesAppend(items, [i]);
    JustOne(i);
    Assoc(t, Messages(items), MessageIn(i));
    assert SaidAll<S>(items + [i]) == SaidAll<S>(items) + [Said(i)];
  }

  /** Nothing on record is lost, and what is new are no answers. */
  ghost predicate OnlyDeeds<S>(before: seq<Entry<S>>, after: seq<Entry<S>>) {
    before <= after && forall k | |before| <= k < |after| :: !after[k].Answered?
  }

  ghost predicate Last<S>(log: seq<Entry<S>>, at: S, a: Answer) {
    log != [] && log[|log| - 1] == Answered(at, a)
  }

  /** The lookup made in state `at` succeeded. */
  ghost predicate Granted<S>(log: seq<Entry<S>>, at: S) {
    exists k :: 0 <= k < |log| && log[k].Answered? && log[k].at == at && log[k].answer.outcome == Succeeded
  }

  /** The read keys changed, and after that came a Finished of `from` over exactly what had been hashed
      by then. */
  ghost predicate FinishedVerified<S>(log: seq<Entry<S>>, from: Who) {
    exists i, k :: 0 <= i < k < |log| && log[i].KeysChanged? && log[k] == Heard(Fin(from, Hashed(log[..k])))
  }

  ghost predicate HeardKind<S>(log: seq<Entry<S>>, kind: Kind) {
    exists k :: 0 <= k < |log| && log[k].Heard? && KindOf(log[k].m) == kind
  }

  ghost predicate IsSaid<S>(e: Entry<S>, kind: Kind) {
    e.Said? && e.item.Hs? && KindOf(e.item.m) == kind
  }

  /** No message of this kind went out before the lookup made in state `at` had succeeded. */
  ghost predicate SaidAfter<S>(log: seq<Entry<S>>, kind: Kind, at: S) {
    forall k | 0 <= k < |log| && IsSaid(log[k], kind) :: Granted(log[..k], at)
  }

  /** Every message of this kind was taken right after its signature had been found valid. */
  ghost predicate Signed<S>(log: seq<Entry<S>>, kind: Kind) {
    forall k | 0 <= k < |log| && log[k].Heard? && KindOf(log[k].m) == kind ::
      k > 0 && log[k - 1].Answered? && log[k - 1].answer.valid
  }

  // ---- What has happened stays so ----

  lemma GrantedStays<S>(log: seq<Entry<S>>, e: Entry<S>, at: S)
    requires Granted(log, at)
    ensures Granted(log + [e], at)
  {
    var k :| 0 <= k < |log| && log[k].Answered? && log[k].at == at && log[k].answer.outcome == Succeeded;
    assert (log + [e])[k] == log[k];
  }

  lemma FinishedStays<S>(log: seq<Entry<S>>, e: Entry<S>, from: Who)
    requires FinishedVerified(log, from)
    ensures FinishedVerified(log + [e], from)
  {
    var i, k :| 0 <= i < k < |log| && log[i].KeysChanged? && log[k] == Heard(Fin(from, Hashed(log[..k])));
    var more := log + [e];
    assert more[..k] == log[..k] && more[i] == log[i] && more[k] == log[k];
  }

  /** An expected Finished is verified by taking it. */
  lemma FinishedNow<S>(log: seq<Entry<S>>, from: Who)
    requires KeysChanged in log
    ensures FinishedVerified(log + [Heard(Fin(from, Hashed(log)))], from)
  {
    var i :| 0 <= i < |log| && log[i] == KeysChanged;
    var more := log + [Heard(Fin(from, Hashed(log)))];
    assert more[..|log|] == log && more[i] == log[i];
  }

  lemma HeardStays<S>(log: seq<Entry<S>>, e: Entry<S>, kind: Kind)
    ensures HeardKind(log + [e], kind) <==> HeardKind(log, kind) || (e.Heard? && KindOf(e.m) == kind)
  {
    var more := log + [e];
    if HeardKind(log, kind) {
      var k :| 0 <= k < |log| && log[k].Heard? && KindOf(log[k].m) == kind;
      assert more[k] == log[k];
    }
    if e.Heard? && KindOf(e.m) == kind {
      assert more[|log|] == e;
    }
  }

  lemma SaidAfterStays<S>(log: seq<Entry<S>>, e: Entry<S>, kind: Kind, at: S)
    requires SaidAfter(log, kind, at) && (IsSaid(e, kind) ==> Granted(log, at))
    ensures SaidAfter(log + [e], kind, at)
  {
    var more := log + [e];
    forall k | 0 <= k < |more| && IsSaid(more[k], kind)
      ensures Granted(more[..k], at)
    {
      assert more[..k] == log[..k];
      if k == |log| {
        assert more[..k] == log;
      }
    }
  }

  lemma SignedStays<S>(log: seq<Entry<S>>, e: Entry<S>, kind: Kind)
    requires Signed(log, kind)
    requires e.Heard? && KindOf(e.m) == kind ==> log != [] && log[|log| - 1].Answered? && log[|log| - 1].answer.valid
    ensures Signed(log + [e], kind)
  {
    var more := log + [e];
    forall k | 0 <= k < |more| && more[k].Heard? && KindOf(more[k].m) == kind
      ensures k > 0 && more[k - 1].Answered? && more[k - 1].answer.valid
    {
      if k < |log| {
        assert more[k] == log[k];
      }
    }
  }

  lemma SignedMeans<S>(log: seq<Entry<S>>, kind: Kind)
    requires Signed(log, kind) && HeardKind(log, kind)
    ensures exists k :: 0 < k < |log| && log[k].Heard? && KindOf(log[k].m) == kind && log[k - 1].Answered? && log[k - 1].answer.valid
  {
    var k :| 0 <= k < |log| && log[k].Heard? && KindOf(log[k].m) == kind;
    assert k > 0 && log[k - 1].Answered? && log[k - 1].answer.valid;
  }
}
