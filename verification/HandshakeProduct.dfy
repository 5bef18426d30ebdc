/** A client and a server over two FIFO channels: no message is ever refused, the handshake cannot
    get stuck, and under every fair schedule it ends with both sides done, nothing in flight and one
    transcript. */
module HandshakeProduct {
  import opened Common
  import opened HandshakeScript

  /** Two sides and what is under way between them, oldest first. */
  datatype Product = Product(client: View, server: View, up: seq<Item>, down: seq<Item>)

  function Own(x: Product, w: Who): View {
    if w == Client then x.client else x.server
  }

  /** What is under way to `w`. */
  function Incoming(x: Product, w: Who): seq<Item> {
    if w == Client then x.down else x.up
  }

  function With(x: Product, w: Who, v: View, incoming: seq<Item>, outgoing: seq<Item>): Product {
    if w == Client then Product(v, x.server, outgoing, incoming) else Product(x.client, v, incoming, outgoing)
  }

  // ---- What can happen ----

  /** Run the state machine; give the transport part of the flight; open records holding some
      messages; open a ChangeCipherSpec. */
  datatype Action = Run(next: View) | Push(n: nat) | Pull(n: nat) | PullChangeCipherSpec

  predicate Opens(items: seq<Item>, reading: bool) {
    forall i | 0 <= i < |items| :: items[i].Hs? && items[i].sealed == reading
  }

  /** A record holds one ChangeCipherSpec, or messages under the same keys. */
  predicate OneRecord(items: seq<Item>) {
    |items| == 1 || Opens(items, true) || Opens(items, false)
  }

  /** The loop of ssl_run_handshake, one turn at a time, for side `w`. A record that does not open or
      has the wrong type is an error. */
  predicate Enabled(p: Params, x: Product, w: Who, a: Action) {
    var v, incoming := Own(x, w), Incoming(x, w);
    match a
    case Run(next) => v.wait == Ok && v.rank > 0 && (Welcome(p, w, v) ==> Moves(p, w, v, next))
    case Push(n) => v.wait == Flush && n <= |v.outbox|
    case Pull(n) => v.wait == ReadMessage && 0 < n <= |incoming| && OneRecord(incoming[..n])
    case PullChangeCipherSpec => v.wait == ReadChangeCipherSpec && incoming != []
  }

  function After(p: Params, x: Product, w: Who, a: Action): Product
    requires Enabled(p, x, w, a)
  {
    var v, incoming, outgoing := Own(x, w), Incoming(x, w), Incoming(x, Peer(w));
    match a
    case Run(next) => With(x, w, next, incoming, outgoing)
    case Push(n) =>
      With(x, w, v.(outbox := v.outbox[n..], wait := if n == |v.outbox| then Ok else Flush), incoming, outgoing + v.outbox[..n])
    case Pull(n) =>
      if Opens(incoming[..n], v.reading) then
        With(x, w, v.(inbox := v.inbox + Messages(incoming[..n]), wait := Ok), incoming[n..], outgoing)
      else With(x, w, v.(wait := Error), incoming, outgoing)
    case PullChangeCipherSpec =>
      if incoming[0].Ccs? && v.inbox == [] && v.rest != [] then
        With(x, w, v.(rest := v.rest[1..], reading := true, wait := Ok), incoming[1..], outgoing)
      else With(x, w, v.(wait := Error), incoming, outgoing)
  }

  // ---- One side ahead of the other by what it has sent ----

  function Opened(msgs: seq<Msg>, sealed: bool): seq<Item> {
    seq(|msgs|, i requires 0 <= i < |msgs| => Hs(msgs[i], sealed))
  }

  /** What `ahead` has sent and `behind` has not taken. */
  function Pending(ahead: View, behind: View, between: seq<Item>): seq<Item> {
    Opened(behind.inbox, behind.reading) + between + ahead.outbox
  }

  /** The sides differ by exactly what is pending: in the script, in the transcript and in the keys. */
  predicate Linked(p: Params, w: Who, ahead: View, behind: View, between: seq<Item>, back: seq<Item>) {
    var pending := Pending(ahead, behind, between);
    && ahead.inbox == [] && back == [] && behind.outbox == []
    && behind.rest == Events(w, pending) + ahead.rest
    && ahead.transcript == behind.transcript + Messages(pending)
    && AllGenuine(p, w, pending, behind.transcript)
    && SealedRight(pending, behind.reading, ahead.writing)
    && ahead.reading == behind.writing
  }

  predicate Ahead(p: Params, x: Product, w: Who) {
    Linked(p, w, Own(x, w), Own(x, Peer(w)), Incoming(x, Peer(w)), Incoming(x, w))
  }

  predicate Inv(p: Params, x: Product) {
    Placed(Client, x.client) && Placed(Server, x.server) && (Ahead(p, x, Client) || Ahead(p, x, Server))
  }

  lemma PendingNone(ahead: View, behind: View, between: seq<Item>)
    ensures Pending(ahead, behind, between) == [] <==> behind.inbox == [] && between == [] && ahead.outbox == []
  {
    if behind.inbox != [] {
      assert Pending(ahead, behind, between)[0] == Hs(behind.inbox[0], behind.reading);
    }
  }

  /** With nothing pending either side may be called the one ahead. */
  lemma Swap(p: Params, w: Who, ahead: View, behind: View, between: seq<Item>, back: seq<Item>)
    requires Linked(p, w, ahead, behind, between, back) && Pending(ahead, behind, between) == []
    ensures Linked(p, Peer(w), behind, ahead, back, between)
  {
    PendingNone(ahead, behind, between);
    PendingNone(behind, ahead, back);
    assert [] + ahead.rest == ahead.rest && behind.transcript + [] == behind.transcript;
    assert [] + behind.rest == behind.rest && ahead.transcript + [] == ahead.transcript;
  }

  lemma FirstPending(p: Params, w: Who, ahead: View, behind: View, between: seq<Item>, back: seq<Item>)
    requires Linked(p, w, ahead, behind, between, back) && Pending(ahead, behind, between) != []
    ensures var i := Pending(ahead, behind, between)[0];
      behind.rest != [] && behind.rest[0] == EventOf(w, i) && (i.Hs? ==> Genuine(p, w, i.m, behind.transcript) && i.sealed == behind.reading)
  {
    hide Genuine;
  }

  /** The side that is ahead, or level, acts. */
  lemma AheadActs(p: Params, w: Who, v: View, next: View, behind: View, between: seq<Item>, more: seq<Item>, back: seq<Item>)
    requires Linked(p, w, v, behind, between, back)
    requires next.inbox == v.inbox && next.reading == v.reading && |more| <= |v.outbox|
    requires more == v.outbox[..|more|] && next.outbox == v.outbox[|more|..]
    requires next.rest == v.rest && next.transcript == v.transcript && next.writing == v.writing
    ensures Linked(p, w, next, behind, between + more, back)
  {
    hide Events, Messages, AllGenuine, SealedRight;
    assert v.outbox == more + next.outbox;
    assert Pending(next, behind, between + more) == Pending(v, behind, between);
  }

  lemma AheadSends(p: Params, w: Who, v: View, next: View, behind: View, between: seq<Item>, back: seq<Item>)
    requires Linked(p, w, v, behind, between, back) && Sends(p, w, v, next)
    ensures Linked(p, w, next, behind, between, back)
  {
    hide Genuine, Events, Messages, AllGenuine, SealedRight, Opened;
    var items, pending := next.outbox[|v.outbox|..], Pending(v, behind, between);
    assert next.outbox == v.outbox + items;
    Assoc(Opened(behind.inbox, behind.reading) + between, v.outbox, items);
    EventsConcat(w, pending, items);
    MessagesAppend(pending, items);
    GenuineAppend(p, w, pending, items, behind.transcript);
    SealedAppend(pending, items, behind.reading, v.writing, next.writing);
    Assoc(Events(w, pending), Events(w, items), next.rest);
    Assoc(behind.transcript, Messages(pending), Messages(items));
  }

  lemma {:induction false} EventsConcat(w: Who, items: seq<Item>, more: seq<Item>)
    ensures Events(w, items + more) == Events(w, items) + Events(w, more)
    decreases |items|
  {
    if items == [] {
      assert [] + more == more;
    } else {
      EventsConcat(w, items[1..], more);
      assert (items + more)[1..] == items[1..] + more;
      Assoc([EventOf(w, items[0])], Events(w, items[1..]), Events(w, more));
    }
  }

  /** The side that is behind takes its first message. */
  lemma BehindTakes(p: Params, w: Who, ahead: View, v: View, next: View, between: seq<Item>, back: seq<Item>)
    requires Linked(p, w, ahead, v, between, back) && Takes(p, Peer(w), v, next)
    ensures Linked(p, w, ahead, next, between, back)
  {
    hide Genuine;
    var pending, i := Pending(ahead, v, between), Hs(v.inbox[0], v.reading);
    assert pending[0] == i;
    assert Opened(next.inbox, next.reading) == Opened(v.inbox, v.reading)[1..];
    assert Pending(ahead, next, between) == pending[1..];
    assert Events(w, pending) == [EventOf(w, i)] + Events(w, pending[1..]);
    assert next.rest == v.rest[1..] == Events(w, pending[1..]) + ahead.rest;
    assert v.transcript + ([i.m] + Messages(pending[1..])) == v.transcript + [i.m] + Messages(pending[1..]);
  }

  /** Opening records moves items from the channel to the inbox, and nothing else. */
  lemma BehindOpens(p: Params, w: Who, ahead: View, v: View, next: View, between: seq<Item>, n: nat, back: seq<Item>)
    requires Linked(p, w, ahead, v, between, back) && n <= |between| && Opens(between[..n], v.reading)
    requires next == v.(inbox := v.inbox + Messages(between[..n]), wait := next.wait)
    ensures Linked(p, w, ahead, next, between[n..], back)
  {
    hide Events, AllGenuine, SealedRight, Messages, Opens, Genuine;
    OpenedMessages(between[..n], v.reading);
    OpenedConcat(v.inbox, Messages(between[..n]), v.reading);
    Regroup(Opened(v.inbox, v.reading), between, n, ahead.outbox);
  }

  lemma OpenedConcat(a: seq<Msg>, b: seq<Msg>, reading: bool)
    ensures Opened(a + b, reading) == Opened(a, reading) + Opened(b, reading)
  {
  }

  lemma Regroup(a: seq<Item>, b: seq<Item>, n: nat, c: seq<Item>)
    requires n <= |b|
    ensures a + b[..n] + b[n..] + c == a + b + c
  {
    assert b[..n] + b[n..] == b;
    Assoc(a, b[..n], b[n..]);
  }

  lemma {:induction false} OpenedMessages(items: seq<Item>, reading: bool)
    requires Opens(items, reading)
    ensures Opened(Messages(items), reading) == items
    decreases |items|
  {
    if items != [] {
      OpenedMessages(items[1..], reading);
      assert Messages(items) == [items[0].m] + Messages(items[1..]);
      assert Opened(Messages(items), reading) == [items[0]] + Opened(Messages(items[1..]), reading);
    }
  }

  lemma BehindChanges(p: Params, w: Who, ahead: View, v: View, next: View, between: seq<Item>, back: seq<Item>)
    requires Linked(p, w, ahead, v, between, back) && v.inbox == [] && between != [] && between[0].Ccs? && v.rest != []
    requires next == v.(rest := v.rest[1..], reading := true, wait := next.wait)
    ensures Linked(p, w, ahead, next, between[1..], back)
  {
    hide Genuine;
    var pending := Pending(ahead, v, between);
    assert pending[0] == between[0];
    assert Pending(ahead, next, between[1..]) == pending[1..];
    assert Events(w, pending) == [EventOf(w, between[0])] + Events(w, pending[1..]);
    assert next.rest == Events(w, pending[1..]) + ahead.rest;
    assert [] + Messages(pending[1..]) == Messages(pending[1..]);
  }

  // ---- No refusal ----

  /** Whatever a side has read is what it expects, down to the MAC in a Finished. */
  lemma AlwaysWelcome(p: Params, x: Product, w: Who)
    requires Inv(p, x)
    ensures Welcome(p, w, Own(x, w))
  {
    hide Genuine, Linked;
    var v := Own(x, w);
    if v.inbox != [] {
      NotAhead(p, x, w);
      var ahead, between := Own(x, Peer(w)), Incoming(x, w);
      assert Pending(ahead, v, between)[0] == Hs(v.inbox[0], v.reading);
      FirstPending(p, Peer(w), ahead, v, between, Incoming(x, Peer(w)));
    }
  }

  /** A side with something to read is the one behind. */
  lemma NotAhead(p: Params, x: Product, w: Who)
    requires Inv(p, x) && (Own(x, w).inbox != [] || Incoming(x, w) != [])
    ensures Ahead(p, x, Peer(w))
  {
  }

  /** The Finished a side is about to read covers exactly what that side has hashed, whatever the
      peer has sent since: the peer's ssl_send_finished and its own ssl_get_finished agree. */
  lemma FinishedAsExpected(p: Params, x: Product, w: Who)
    requires Inv(p, x) && Own(x, w).inbox != [] && KindOf(Own(x, w).inbox[0]) == Finished
    ensures Own(x, w).inbox[0] == Fin(Peer(w), Own(x, w).transcript)
  {
    hide Linked;
    AlwaysWelcome(p, x, w);
  }

  /** And so does every Finished still under way, counted from where it will be read. */
  lemma EveryFinishedCovers(p: Params, x: Product, w: Who, k: nat)
    requires Inv(p, x) && Ahead(p, x, Peer(w))
    requires var pending := Pending(Own(x, Peer(w)), Own(x, w), Incoming(x, w));
      k < |pending| && pending[k].Hs? && KindOf(pending[k].m) == Finished
    ensures var pending := Pending(Own(x, Peer(w)), Own(x, w), Incoming(x, w));
      pending[k].m == Fin(Peer(w), Own(x, w).transcript + Messages(pending[..k]))
  {
    var pending, before := Pending(Own(x, Peer(w)), Own(x, w), Incoming(x, w)), Own(x, w).transcript;
    assert Peer(Peer(w)) == w;
    assert pending == pending[..k] + pending[k..];
    GenuineAppend(p, Peer(w), pending[..k], pending[k..], before);
  }

  lemma RecordOpens(p: Params, x: Product, w: Who, n: nat)
    requires Inv(p, x) && Enabled(p, x, w, Pull(n))
    ensures Opens(Incoming(x, w)[..n], Own(x, w).reading)
  {
    hide Genuine, Linked;
    NotAhead(p, x, w);
    var v, ahead, between := Own(x, w), Own(x, Peer(w)), Incoming(x, w);
    assert v.inbox == [] && NextFrom(v, Peer(w)) && v.rest[0].kind != ChangeCipherSpec;
    assert Pending(ahead, v, between)[0] == between[0];
    FirstPending(p, Peer(w), ahead, v, between, Incoming(x, Peer(w)));
    assert between[..n][0] == between[0];
  }

  /** A side that waits for a ChangeCipherSpec has no message left unread. */
  lemma NothingUnread(p: Params, x: Product, w: Who)
    requires Inv(p, x) && Own(x, w).wait == ReadChangeCipherSpec
    ensures Own(x, w).inbox == []
  {
    hide Linked;
    var v, ahead, between := Own(x, w), Own(x, Peer(w)), Incoming(x, w);
    if v.inbox != [] {
      NotAhead(p, x, w);
      assert Pending(ahead, v, between)[0] == Hs(v.inbox[0], v.reading);
      FirstPending(p, Peer(w), ahead, v, between, Incoming(x, Peer(w)));
      assert false;
    }
  }

  lemma ChangeArrives(p: Params, x: Product, w: Who)
    requires Inv(p, x) && Enabled(p, x, w, PullChangeCipherSpec)
    ensures Incoming(x, w)[0].Ccs? && Own(x, w).inbox == [] && Own(x, w).rest != []
  {
    hide Linked;
    NotAhead(p, x, w);
    NothingUnread(p, x, w);
    var v, ahead, between := Own(x, w), Own(x, Peer(w)), Incoming(x, w);
    assert Pending(ahead, v, between)[0] == between[0];
    FirstPending(p, Peer(w), ahead, v, between, Incoming(x, Peer(w)));
  }

  // ---- Every step keeps the invariant ----

  lemma RunKeeps(p: Params, x: Product, w: Who, next: View)
    requires Inv(p, x) && Enabled(p, x, w, Run(next))
    ensures Inv(p, After(p, x, w, Run(next)))
  {
    hide Genuine, Linked, Sends, Takes, Pending;
    AlwaysWelcome(p, x, w);
    var v, other, incoming, outgoing := Own(x, w), Own(x, Peer(w)), Incoming(x, w), Incoming(x, Peer(w));
    assert Peer(Peer(w)) == w;
    if Blocks(v, next) || Retries(v, next) {
      Relinked(p, w, v, next, other, outgoing, incoming);
    } else if Sends(p, w, v, next) {
      if !Ahead(p, x, w) {
        BehindSends(p, w, v, next, other, outgoing, incoming);
      }
      if Ahead(p, x, w) {
        AheadSends(p, w, v, next, other, outgoing, incoming);
      }
    } else {
      InboxUsed(p, w, v, next);
      NotAhead(p, x, w);
      BehindTakes(p, Peer(w), other, v, next, incoming, outgoing);
    }
  }

  lemma InboxUsed(p: Params, w: Who, v: View, next: View)
    requires Takes(p, w, v, next)
    ensures v.inbox != []
  {
  }

  lemma EventsHead(w: Who, items: seq<Item>)
    requires items != []
    ensures Events(w, items) != [] && Events(w, items)[0].from == w
  {
  }

  /** A side that is owed something can only send nothing. */
  lemma BehindSends(p: Params, w: Who, v: View, next: View, other: View, outgoing: seq<Item>, incoming: seq<Item>)
    requires Linked(p, Peer(w), other, v, incoming, outgoing) && Sends(p, w, v, next)
    ensures Linked(p, Peer(w), other, next, incoming, outgoing) || Linked(p, w, v, other, outgoing, incoming)
  {
    hide Genuine, AllGenuine;
    assert Peer(Peer(w)) == w;
    if Pending(other, v, incoming) == [] {
      Swap(p, Peer(w), other, v, incoming, outgoing);
    } else {
      FirstPending(p, Peer(w), other, v, incoming, outgoing);
      var items := next.outbox[|v.outbox|..];
      if items != [] {
        EventsHead(w, items);
        assert false;
      }
      assert next.outbox == v.outbox;
      assert [] + next.rest == next.rest && v.transcript + [] == v.transcript;
    }
  }

  /** Waiting changes nothing that the link is about. */
  lemma Relinked(p: Params, w: Who, v: View, next: View, other: View, outgoing: seq<Item>, incoming: seq<Item>)
    requires next == v.(wait := next.wait)
    ensures Linked(p, w, v, other, outgoing, incoming) ==> Linked(p, w, next, other, outgoing, incoming)
    ensures Linked(p, Peer(w), other, v, incoming, outgoing) ==> Linked(p, Peer(w), other, next, incoming, outgoing)
  {
  }

  lemma PushKeeps(p: Params, x: Product, w: Who, n: nat)
    requires Inv(p, x) && Enabled(p, x, w, Push(n))
    ensures Inv(p, After(p, x, w, Push(n)))
  {
    hide Linked, Pending;
    var v, other, incoming, outgoing := Own(x, w), Own(x, Peer(w)), Incoming(x, w), Incoming(x, Peer(w));
    var next := Own(After(p, x, w, Push(n)), w);
    assert Peer(Peer(w)) == w;
    if Ahead(p, x, w) {
      AheadActs(p, w, v, next, other, outgoing, v.outbox[..n], incoming);
    } else {
      NothingToPush(p, w, v, other, outgoing, incoming);
      assert outgoing + v.outbox[..n] == outgoing && next == v.(wait := next.wait);
      Relinked(p, w, v, next, other, outgoing, incoming);
    }
  }

  lemma NothingToPush(p: Params, w: Who, v: View, other: View, outgoing: seq<Item>, incoming: seq<Item>)
    requires Linked(p, Peer(w), other, v, incoming, outgoing)
    ensures v.outbox == []
  {
  }

  lemma PullKeeps(p: Params, x: Product, w: Who, a: Action)
    requires Inv(p, x) && Enabled(p, x, w, a) && (a.Pull? || a.PullChangeCipherSpec?)
    ensures Inv(p, After(p, x, w, a)) && Own(After(p, x, w, a), w).wait == Ok
  {
    hide Linked, Pending, Messages;
    var v, other, incoming, outgoing := Own(x, w), Own(x, Peer(w)), Incoming(x, w), Incoming(x, Peer(w));
    assert Peer(Peer(w)) == w;
    NotAhead(p, x, w);
    NothingToPush(p, w, v, other, outgoing, incoming);
    if a.Pull? {
      RecordOpens(p, x, w, a.n);
      BehindOpens(p, Peer(w), other, v, Own(After(p, x, w, a), w), incoming, a.n, outgoing);
    } else {
      ChangeArrives(p, x, w);
      BehindChanges(p, Peer(w), other, v, Own(After(p, x, w, a), w), incoming, outgoing);
    }
  }

  /** Every step of either side keeps the invariant; so no reachable state holds a refusal. */
  lemma StepKeeps(p: Params, x: Product, w: Who, a: Action)
    requires Inv(p, x) && Enabled(p, x, w, a)
    ensures Inv(p, After(p, x, w, a))
    ensures After(p, x, w, a).client.wait != Error && After(p, x, w, a).server.wait != Error
  {
    hide Linked, Pending;
    match a
    case Run(next) => RunKeeps(p, x, w, next);
    case Push(n) => PushKeeps(p, x, w, n);
    case Pull(_) => PullKeeps(p, x, w, a);
    case PullChangeCipherSpec => PullKeeps(p, x, w, a);
  }

  // ---- Termination and progress ----

  function Weight(v: View): nat {
    100 * v.rank + 10 * |v.outbox| +
    match v.wait
    case Flush => 3
    case Ok => 2
    case Again => 0
    case ReadMessage => 1
    case ReadChangeCipherSpec => 1
    case Error => 0
  }

  function Rank(x: Product): nat {
    Weight(x.client) + Weight(x.server) + 4 * (|x.up| + |x.down|)
  }

  /** A lookup that is not finished, and a transport that takes nothing. */
  predicate Stutters(p: Params, x: Product, w: Who, a: Action)
    requires Enabled(p, x, w, a)
  {
    match a
    case Run(next) => Retries(Own(x, w), next)
    case Push(n) => n == 0 && Own(x, w).outbox != []
    case _ => false
  }

  lemma MoveDescends(p: Params, w: Who, v: View, next: View)
    requires Moves(p, w, v, next) && v.wait == Ok
    ensures if Retries(v, next) then Weight(next) == Weight(v) else Weight(next) < Weight(v)
  {
    hide Genuine, AllGenuine, SealedRight, Events, Messages, Placed;
  }

  /** Every step but a stutter lowers the rank, and a stutter leaves it: retries cost nothing. */
  lemma StepDescends(p: Params, x: Product, w: Who, a: Action)
    requires Inv(p, x) && Enabled(p, x, w, a)
    ensures if Stutters(p, x, w, a) then Rank(After(p, x, w, a)) == Rank(x) else Rank(After(p, x, w, a)) < Rank(x)
  {
    hide Inv, Moves, Welcome, Opens, OneRecord, Messages;
    match a
    case Run(next) =>
      AlwaysWelcome(p, x, w);
      MoveDescends(p, w, Own(x, w), next);
    case Pull(n) => RecordOpens(p, x, w, n);
    case PullChangeCipherSpec => ChangeArrives(p, x, w);
    case _ =>
  }

  predicate Done(v: View) {
    v.rank == 0
  }

  /** What a side can do next whatever its peer does. */
  predicate CanAct(x: Product, w: Who) {
    var v := Own(x, w);
    (v.wait == Ok && v.rank > 0) || v.wait == Flush ||
    ((v.wait == ReadMessage || v.wait == ReadChangeCipherSpec) && Incoming(x, w) != [])
  }

  /** No deadlock: until both sides are done, one of them can act. */
  lemma Progress(p: Params, x: Product)
    requires Inv(p, x) && !(Done(x.client) && Done(x.server))
    ensures CanAct(x, Client) || CanAct(x, Server)
  {
    hide Linked;
    var w := if Ahead(p, x, Client) then Client else Server;
    LevelOrOwed(p, w, Own(x, w), Own(x, Peer(w)), Incoming(x, Peer(w)), Incoming(x, w));
    PendingNone(Own(x, w), Own(x, Peer(w)), Incoming(x, Peer(w)));
    if Own(x, Peer(w)).wait == ReadChangeCipherSpec {
      NothingUnread(p, x, Peer(w));
    }
  }

  /** Either the sides are level, or the one behind is owed what the other has sent. */
  lemma LevelOrOwed(p: Params, w: Who, ahead: View, behind: View, between: seq<Item>, back: seq<Item>)
    requires Linked(p, w, ahead, behind, between, back)
    ensures if Pending(ahead, behind, between) == [] then behind.rest == ahead.rest else NextFrom(behind, w)
    ensures behind.outbox == [] && ahead.inbox == []
  {
    hide Genuine;
    if Pending(ahead, behind, between) == [] {
      assert [] + ahead.rest == ahead.rest;
    } else {
      FirstPending(p, w, ahead, behind, between, back);
    }
  }

  /** Both sides end with nothing in flight, the same transcript and the new keys both ways. */
  lemma EndsInAgreement(p: Params, x: Product)
    requires Inv(p, x) && Done(x.client) && Done(x.server)
    ensures x.up == [] && x.down == [] && x.client.transcript == x.server.transcript
    ensures x.client.inbox == x.server.inbox == [] && x.client.outbox == x.server.outbox == []
    ensures x.client.reading == x.server.writing && x.server.reading == x.client.writing
  {
    var w := if Ahead(p, x, Client) then Client else Server;
    var ahead, behind, between := Own(x, w), Own(x, Peer(w)), Incoming(x, Peer(w));
    LevelOrOwed(p, w, ahead, behind, between, Incoming(x, w));
    PendingNone(ahead, behind, between);
    assert behind.transcript + [] == behind.transcript;
  }

  // ---- Each message once, in the order of the script ----

  function Kinds(msgs: seq<Msg>): seq<Kind> {
    seq(|msgs|, i requires 0 <= i < |msgs| => KindOf(msgs[i]))
  }

  function MessageKinds(events: seq<Event>): seq<Kind> {
    if events == [] then []
    else (if events[0].kind == ChangeCipherSpec then [] else [events[0].kind]) + MessageKinds(events[1..])
  }

  /** The transcript so far, and then the rest of the script, is the script. */
  predicate OnScript(p: Params, v: View) {
    Kinds(v.transcript) + MessageKinds(v.rest) == MessageKinds(Script(p))
  }

  lemma {:induction false} MessageKindsConcat(a: seq<Event>, b: seq<Event>)
    ensures MessageKinds(a + b) == MessageKinds(a) + MessageKinds(b)
    decreases |a|
  {
    if a == [] {
      assert [] + b == b;
    } else {
      MessageKindsConcat(a[1..], b);
      assert (a + b)[1..] == a[1..] + b;
      Assoc(if a[0].kind == ChangeCipherSpec then [] else [a[0].kind], MessageKinds(a[1..]), MessageKinds(b));
    }
  }

  lemma {:induction false} SentKinds(p: Params, w: Who, items: seq<Item>, before: seq<Msg>)
    requires AllGenuine(p, w, items, before)
    ensures MessageKinds(Events(w, items)) == Kinds(Messages(items))
    decreases |items|
  {
    hide Genuine, Events, Messages, MessageKinds, Kinds;
    Unrolled(w, items);
    if items != [] {
      var i := items[0];
      MessageKindsConcat([EventOf(w, i)], Events(w, items[1..]));
      OneKind(EventOf(w, i));
      KindsConcat(MessageIn(i), Messages(items[1..]));
      KindIn(i);
      if i.Ccs? {
        SentKinds(p, w, items[1..], before);
      } else {
        NoChange(p, w, i.m, before);
        SentKinds(p, w, items[1..], before + [i.m]);
      }
    } else {
      NoKinds();
    }
  }

  lemma Unrolled(w: Who, items: seq<Item>)
    ensures Events(w, items) == if items == [] then [] else [EventOf(w, items[0])] + Events(w, items[1..])
    ensures Messages(items) == if items == [] then [] else MessageIn(items[0]) + Messages(items[1..])
  {
  }

  lemma NoKinds()
    ensures MessageKinds([]) == [] && Kinds([]) == []
  {
  }

  lemma KindIn(i: Item)
    ensures Kinds(MessageIn(i)) == if i.Hs? then [KindOf(i.m)] else []
  {
  }

  lemma KindsConcat(a: seq<Msg>, b: seq<Msg>)
    ensures Kinds(a + b) == Kinds(a) + Kinds(b)
  {
  }

  lemma NoChange(p: Params, w: Who, m: Msg, before: seq<Msg>)
    requires Genuine(p, w, m, before)
    ensures KindOf(m) != ChangeCipherSpec
  {
  }

  lemma MoveStaysOnScript(p: Params, w: Who, v: View, next: View)
    requires OnScript(p, v) && Moves(p, w, v, next) && Welcome(p, w, v)
    ensures OnScript(p, next)
  {
    hide Script, AllGenuine, Events, Messages, MessageKinds, SealedRight, Placed;
    if Sends(p, w, v, next) {
      var items := next.outbox[|v.outbox|..];
      SentKinds(p, w, items, v.transcript);
      MessageKindsConcat(Events(w, items), next.rest);
      assert Kinds(next.transcript) == Kinds(v.transcript) + Kinds(Messages(items));
    } else if Takes(p, w, v, next) {
      MessageKindsConcat([Event(Peer(w), KindOf(v.inbox[0]))], next.rest);
      OneKind(Event(Peer(w), KindOf(v.inbox[0])));
      assert Kinds(next.transcript) == Kinds(v.transcript) + [KindOf(v.inbox[0])];
    }
  }

  lemma OneKind(e: Event)
    ensures MessageKinds([e]) == if e.kind == ChangeCipherSpec then [] else [e.kind]
  {
  }

  lemma ChangeIsNext(p: Params, x: Product, w: Who)
    requires Inv(p, x) && Own(x, w).wait == ReadChangeCipherSpec
    ensures Own(x, w).rest != [] && Own(x, w).rest[0].kind == ChangeCipherSpec
  {
  }

  lemma ChangeIsNoMessage(events: seq<Event>)
    requires events != [] && events[0].kind == ChangeCipherSpec
    ensures MessageKinds(events) == MessageKinds(events[1..])
  {
  }

  lemma StepStaysOnScript(p: Params, x: Product, w: Who, a: Action)
    requires Inv(p, x) && Enabled(p, x, w, a) && OnScript(p, x.client) && OnScript(p, x.server)
    ensures OnScript(p, After(p, x, w, a).client) && OnScript(p, After(p, x, w, a).server)
  {
    hide Inv, Moves, Welcome, Script, Messages, MessageKinds, Kinds, Opens, OneRecord;
    var v := Own(x, w);
    match a
    case Run(next) =>
      AlwaysWelcome(p, x, w);
      MoveStaysOnScript(p, w, v, next);
    case PullChangeCipherSpec =>
      ChangeIsNext(p, x, w);
      ChangeIsNoMessage(v.rest);
    case _ =>
  }

  // ---- Whole runs ----

  /** One turn of a side: what it does, if there is anything it can do. In a turn that is `ready` the
      lookups are finished and the transport takes something. */
  datatype Turn = Turn(w: Who, ready: bool, act: Option<Action>)

  predicate Allowed(p: Params, x: Product, t: Turn) {
    if t.act.None? then !CanAct(x, t.w)
    else Enabled(p, x, t.w, t.act.value) && (t.ready ==> !Stutters(p, x, t.w, t.act.value))
  }

  function Next(p: Params, x: Product, t: Turn): Product
    requires Allowed(p, x, t)
  {
    if t.act.None? then x else After(p, x, t.w, t.act.value)
  }

  predicate IsRun(p: Params, x: Product, turns: seq<Turn>)
    decreases |turns|
  {
    turns != [] ==> Allowed(p, x, turns[0]) && IsRun(p, Next(p, x, turns[0]), turns[1..])
  }

  function End(p: Params, x: Product, turns: seq<Turn>): Product
    requires IsRun(p, x, turns)
    decreases |turns|
  {
    if turns == [] then x else End(p, Next(p, x, turns[0]), turns[1..])
  }

  /** The number of turns that are neither idle nor stutters. */
  function Strides(p: Params, x: Product, turns: seq<Turn>): nat
    requires IsRun(p, x, turns)
    decreases |turns|
  {
    if turns == [] then 0
    else
      var t := turns[0];
      (if t.act.None? || Stutters(p, x, t.w, t.act.value) then 0 else 1) + Strides(p, Next(p, x, t), turns[1..])
  }

  predicate Reachable(p: Params, x: Product) {
    Inv(p, x) && OnScript(p, x.client) && OnScript(p, x.server)
  }

  predicate Fresh(p: Params, v: View) {
    v.rest == Script(p) && v.rank > 0 && v.wait == Ok && v.inbox == [] && v.outbox == [] && v.transcript == []
    && !v.reading && !v.writing
  }

  lemma StartIsReachable(p: Params, x: Product)
    requires Fresh(p, x.client) && Fresh(p, x.server) && x.up == [] && x.down == []
    ensures Reachable(p, x)
  {
    hide Script;
    assert Pending(x.client, x.server, x.up) == [];
    assert [] + x.client.rest == x.client.rest;
    assert Kinds([]) == [];
  }

  lemma TurnKeeps(p: Params, x: Product, t: Turn)
    requires Reachable(p, x) && Allowed(p, x, t)
    ensures Reachable(p, Next(p, x, t))
    ensures Next(p, x, t).client.wait != Error && Next(p, x, t).server.wait != Error
    ensures t.act.Some? ==>
      if Stutters(p, x, t.w, t.act.value) then Rank(Next(p, x, t)) == Rank(x) else Rank(Next(p, x, t)) < Rank(x)
  {
    hide Linked, Script, Moves, Rank, Enabled, After, Stutters;
    if t.act.Some? {
      StepKeeps(p, x, t.w, t.act.value);
      StepDescends(p, x, t.w, t.act.value);
      StepStaysOnScript(p, x, t.w, t.act.value);
    }
  }

  /** However long the run and however often it retries: nothing is refused, the transcripts follow
      the script, and only boundedly many turns are neither idle nor retries. */
  lemma {:induction false} RunsAreSafe(p: Params, x: Product, turns: seq<Turn>)
    requires Reachable(p, x) && IsRun(p, x, turns)
    ensures Reachable(p, End(p, x, turns))
    ensures End(p, x, turns).client.wait != Error && End(p, x, turns).server.wait != Error
    ensures Strides(p, x, turns) + Rank(End(p, x, turns)) <= Rank(x)
    decreases |turns|
  {
    hide Inv, OnScript, Rank, Allowed, Next, Stutters;
    if turns == [] {
      NothingRefused(p, x);
    } else {
      TurnKeeps(p, x, turns[0]);
      TurnMeans(p, x, turns[0]);
      RunsAreSafe(p, Next(p, x, turns[0]), turns[1..]);
    }
  }

  lemma NothingRefused(p: Params, x: Product)
    requires Reachable(p, x)
    ensures x.client.wait != Error && x.server.wait != Error
  {
    hide Linked, Script;
  }

  lemma TurnMeans(p: Params, x: Product, t: Turn)
    requires Allowed(p, x, t)
    ensures if t.act.None? then Next(p, x, t) == x && !CanAct(x, t.w) else Enabled(p, x, t.w, t.act.value)
    ensures t.ready && t.act.Some? ==> !Stutters(p, x, t.w, t.act.value)
  {
    hide Enabled, Stutters, CanAct;
  }

  /** The handshake is over for both sides. */
  predicate Final(x: Product) {
    Done(x.client) && Done(x.server)
  }

  lemma FinalIsIdle(p: Params, x: Product, w: Who)
    requires Reachable(p, x) && Final(x)
    ensures !CanAct(x, w)
  {
    hide Linked, Script;
    EndsInAgreement(p, x);
  }

  /** The other side's turns, and one's own that come to nothing, leave a side able to act. */
  lemma StillCanAct(p: Params, x: Product, t: Turn, w: Who)
    requires Reachable(p, x) && Allowed(p, x, t) && CanAct(x, w)
    requires t.w == w ==> t.act.None? || Stutters(p, x, w, t.act.value)
    ensures CanAct(Next(p, x, t), w)
  {
    hide Inv, OnScript, Welcome, Moves, Opens, OneRecord, Messages;
    assert Peer(Peer(w)) == w;
  }

  // ---- Fair schedules ----

  /** How often both sides have had a ready turn: the rounds of a schedule, of which the first has
      given one to the client (`c`) or to the server (`s`) before. */
  function Rounds(turns: seq<Turn>, c: bool, s: bool): nat {
    if turns == [] then 0
    else
      var c', s' := c || (turns[0].ready && turns[0].w == Client), s || (turns[0].ready && turns[0].w == Server);
      if c' && s' then 1 + Rounds(turns[1..], false, false) else Rounds(turns[1..], c', s')
  }

  /** What a round under way has to show: a step taken, or a side that can act and has yet to have
      its ready turn. */
  predicate UnderWay(x: Product, c: bool, s: bool, lowered: bool) {
    lowered || Final(x) || (CanAct(x, Client) && !c) || (CanAct(x, Server) && !s)
  }

  lemma FinalStays(p: Params, x: Product, t: Turn)
    requires Reachable(p, x) && Final(x) && Allowed(p, x, t)
    ensures Next(p, x, t) == x
  {
    hide Reachable, Final, CanAct, Enabled, Stutters;
    FinalIsIdle(p, x, t.w);
    if t.act.Some? {
      EnabledCanAct(p, x, t.w, t.act.value);
      assert false;
    }
  }

  lemma EnabledCanAct(p: Params, x: Product, w: Who, a: Action)
    requires Enabled(p, x, w, a)
    ensures CanAct(x, w)
  {
    hide Welcome, Moves, OneRecord;
  }

  /** A turn that does not lower the rank leaves the round under way, and one that completes the
      round has lowered it before or does so now. */
  lemma RoundGoesOn(p: Params, x: Product, t: Turn, c: bool, s: bool, lowered: bool)
    requires Reachable(p, x) && Allowed(p, x, t) && UnderWay(x, c, s, lowered) && !(c && s)
    ensures var (c', s') := (c || (t.ready && t.w == Client), s || (t.ready && t.w == Server));
      var x' := Next(p, x, t);
      && Rank(x') <= Rank(x)
      && (Final(x) ==> Final(x'))
      && UnderWay(x', c', s', lowered || Rank(x') < Rank(x))
      && (c' && s' ==> lowered || Rank(x') < Rank(x) || Final(x'))
  {
    hide Reachable, Final, CanAct, Enabled, Stutters, Rank, After;
    TurnKeeps(p, x, t);
    TurnMeans(p, x, t);
    if Final(x) {
      FinalStays(p, x, t);
    } else if !lowered && Rank(Next(p, x, t)) >= Rank(x) {
      var w := if CanAct(x, Client) && !c then Client else Server;
      assert t.w == w ==> !t.ready;
      StillCanAct(p, x, t, w);
    }
  }

  /** Each round of a schedule lowers the rank, until the handshake is over. */
  lemma {:induction false} RoundsLower(p: Params, x: Product, turns: seq<Turn>, c: bool, s: bool, lowered: bool)
    requires Reachable(p, x) && IsRun(p, x, turns) && UnderWay(x, c, s, lowered) && !(c && s)
    ensures Final(End(p, x, turns)) || Rank(End(p, x, turns)) + Rounds(turns, c, s) <= Rank(x) + if lowered then 1 else 0
    decreases |turns|
  {
    hide Reachable, Allowed, Next, Rank, Final, CanAct;
    if turns != [] {
      var t := turns[0];
      var x', c', s' := Next(p, x, t), c || (t.ready && t.w == Client), s || (t.ready && t.w == Server);
      TurnKeeps(p, x, t);
      RoundGoesOn(p, x, t, c, s, lowered);
      if c' && s' {
        SomeoneCanAct(p, x');
        RoundsLower(p, x', turns[1..], false, false, false);
        if Final(x') {
          FinalRun(p, x', turns[1..]);
        }
      } else {
        RoundsLower(p, x', turns[1..], c', s', lowered || Rank(x') < Rank(x));
      }
    }
  }

  lemma {:induction false} FinalRun(p: Params, x: Product, turns: seq<Turn>)
    requires Reachable(p, x) && IsRun(p, x, turns) && Final(x)
    ensures End(p, x, turns) == x
    decreases |turns|
  {
    hide Reachable, Allowed, Next, Final;
    if turns != [] {
      FinalStays(p, x, turns[0]);
      FinalRun(p, x, turns[1..]);
    }
  }

  lemma SomeoneCanAct(p: Params, x: Product)
    requires Reachable(p, x)
    ensures UnderWay(x, false, false, false)
  {
    hide Inv, CanAct, OnScript;
    if !Final(x) {
      Progress(p, x);
    }
  }

  /** Every fair schedule completes the handshake: within as many rounds as the rank at its start both
      sides are done, nothing is in flight, and both have hashed the same messages, each message of
      the script once and in its order. */
  lemma FairRunsComplete(p: Params, x: Product, turns: seq<Turn>)
    requires Reachable(p, x) && IsRun(p, x, turns) && Rounds(turns, false, false) >= Rank(x)
    ensures Final(End(p, x, turns)) && Agreed(p, End(p, x, turns))
  {
    hide Reachable, IsRun, End, Rounds, Rank, Final, Agreed;
    var end := End(p, x, turns);
    RunsAreSafe(p, x, turns);
    SomeoneCanAct(p, x);
    RoundsLower(p, x, turns, false, false, false);
    RankIsPositive(p, end);
    FinalAgrees(p, end);
  }

  lemma RankIsPositive(p: Params, x: Product)
    requires Reachable(p, x)
    ensures Rank(x) > 0
  {
    hide Linked, Script;
  }

  /** Nothing in flight or unread, and one transcript: that of the script. */
  predicate Agreed(p: Params, x: Product) {
    && x.up == [] && x.down == []
    && x.client.inbox == x.server.inbox == [] && x.client.outbox == x.server.outbox == []
    && x.client.transcript == x.server.transcript && Kinds(x.client.transcript) == MessageKinds(Script(p))
    && x.client.reading == x.server.writing && x.server.reading == x.client.writing
  }

  lemma FinalAgrees(p: Params, x: Product)
    requires Reachable(p, x)
    ensures Final(x) ==> Agreed(p, x)
  {
    hide Linked, Script;
    if Final(x) {
      EndsInAgreement(p, x);
      assert x.client.rest == [];
      assert Kinds(x.client.transcript) + [] == Kinds(x.client.transcript);
    }
  }

  /** No run, fair or not, comes to a stop before that: either both sides are done and agree, or one of
      them can act. */
  lemma RunsEndInAgreement(p: Params, x: Product, turns: seq<Turn>)
    requires Reachable(p, x) && IsRun(p, x, turns)
    ensures var end := End(p, x, turns);
      if Final(end) then Agreed(p, end) else CanAct(end, Client) || CanAct(end, Server)
  {
    hide Reachable, IsRun, End, CanAct, Agreed, Final;
    RunsAreSafe(p, x, turns);
    FinalAgrees(p, End(p, x, turns));
    SomeoneCanAct(p, End(p, x, turns));
  }

  /** A run grows one turn at a time. */
  lemma {:induction false} RunGrows(p: Params, x: Product, turns: seq<Turn>, t: Turn)
    requires IsRun(p, x, turns) && Allowed(p, End(p, x, turns), t)
    ensures IsRun(p, x, turns + [t]) && End(p, x, turns + [t]) == Next(p, End(p, x, turns), t)
    decreases |turns|
  {
    hide Allowed, Next;
    if turns == [] {
      assert [] + [t] == [t] && [t][1..] == [];
    } else {
      RunGrows(p, Next(p, x, turns[0]), turns[1..], t);
      assert (turns + [t])[1..] == turns[1..] + [t];
    }
  }
}
