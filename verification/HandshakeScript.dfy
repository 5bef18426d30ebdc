/** The message flow of a TLS 1.0 to 1.2 handshake (section 7.3 of RFC 5246) and what one side may
    do at a time. ClientHandshake and ServerHandshake are proved to move only like this, and
    HandshakeProduct proves what two such sides do together. */
module HandshakeScript {

  datatype Who = Client | Server

  function Peer(w: Who): Who {
    if w == Client then Server else Client
  }

  datatype Kind =
    | ClientHello | ServerHello | Certificate | CertificateStatus | ServerKeyExchange
    | CertificateRequest | ServerHelloDone | ClientKeyExchange | CertificateVerify
    | ChangeCipherSpec | NextProto | ChannelId | Finished | NewSessionTicket

  /** A handshake message. The MAC in a Finished stands for the transcript it was computed over and
      the label of its sender (section 7.4.9 of RFC 5246). */
  datatype Msg = Plain(kind: Kind, data: seq<bv8>) | Fin(from: Who, over: seq<Msg>)

  function KindOf(m: Msg): Kind {
    if m.Plain? then m.kind else Finished
  }

  /** What travels: a message, under the new keys or not, or a ChangeCipherSpec. */
  datatype Item = Hs(m: Msg, sealed: bool) | Ccs

  datatype Event = Event(from: Who, kind: Kind)

  function EventOf(from: Who, i: Item): Event {
    Event(from, if i.Ccs? then ChangeCipherSpec else KindOf(i.m))
  }

  // ---- What the two hellos agree on ----

  /** `resumed`: the session is; `certAuth`: the cipher uses a certificate, otherwise a PSK;
      `keyRequired`: the cipher has an ephemeral key exchange; `keyExchange`: a ServerKeyExchange is
      sent, which a PSK identity hint may also be the reason for; `certRequest`: the server asks for a
      client certificate; `clientCert`: the client has one; `ocsp`: a certificate status was
      negotiated; `status`: the server does send it; `ticket`, `npn`, `channelId`: the extensions in
      effect. */
  datatype Params = Params(
    resumed: bool, certAuth: bool, keyRequired: bool, keyExchange: bool, certRequest: bool, clientCert: bool,
    clientCertRequired: bool, ocsp: bool, status: bool, ticket: bool, npn: bool, channelId: bool)

  predicate Compatible(p: Params) {
    && (p.certRequest ==> p.certAuth && !p.resumed)
    && (p.ocsp ==> p.certAuth && !p.resumed) && (p.status ==> p.ocsp)
    && (p.keyRequired ==> p.keyExchange) && (p.keyExchange && p.certAuth ==> p.keyRequired)
    && (p.certRequest && p.clientCertRequired ==> p.clientCert)
  }

  // ---- The script: everything still to be sent, by either side, from each point on ----

  function If(c: bool, from: Who, kind: Kind): seq<Event> {
    if c then [Event(from, kind)] else []
  }

  function ClientFlight(p: Params): seq<Event> {
    [Event(Client, ChangeCipherSpec)] + If(p.npn, Client, NextProto) + If(p.channelId, Client, ChannelId) + [Event(Client, Finished)]
  }

  function ServerFlight(p: Params): seq<Event> {
    If(p.ticket, Server, NewSessionTicket) + [Event(Server, ChangeCipherSpec), Event(Server, Finished)]
  }

  function FromClientCcs(p: Params): seq<Event> {
    ClientFlight(p) + if p.resumed then [] else ServerFlight(p)
  }

  function FromTicket(p: Params): seq<Event> {
    ServerFlight(p) + if p.resumed then ClientFlight(p) else []
  }

  function FromServerCcs(p: Params): seq<Event> {
    [Event(Server, ChangeCipherSpec)] + FromServerFinished(p)
  }

  function FromServerFinished(p: Params): seq<Event> {
    [Event(Server, Finished)] + if p.resumed then ClientFlight(p) else []
  }

  function FromNextProto(p: Params): seq<Event> {
    If(p.npn, Client, NextProto) + FromChannelId(p)
  }

  function FromChannelId(p: Params): seq<Event> {
    If(p.channelId, Client, ChannelId) + FromClientFinished(p)
  }

  function FromClientFinished(p: Params): seq<Event> {
    [Event(Client, Finished)] + if p.resumed then [] else ServerFlight(p)
  }

  function FromCertificateVerify(p: Params): seq<Event> {
    If(p.certRequest && p.clientCert, Client, CertificateVerify) + FromClientCcs(p)
  }

  function FromClientKeyExchange(p: Params): seq<Event> {
    [Event(Client, ClientKeyExchange)] + FromCertificateVerify(p)
  }

  function FromClientCertificate(p: Params): seq<Event> {
    If(p.certRequest, Client, Certificate) + FromClientKeyExchange(p)
  }

  function FromHelloDone(p: Params): seq<Event> {
    [Event(Server, ServerHelloDone)] + FromClientCertificate(p)
  }

  function FromCertificateRequest(p: Params): seq<Event> {
    If(p.certRequest, Server, CertificateRequest) + FromHelloDone(p)
  }

  function FromServerKeyExchange(p: Params): seq<Event> {
    If(p.keyExchange, Server, ServerKeyExchange) + FromCertificateRequest(p)
  }

  function FromCertificateStatus(p: Params): seq<Event> {
    If(p.status, Server, CertificateStatus) + FromServerKeyExchange(p)
  }

  function FromServerCertificate(p: Params): seq<Event> {
    If(p.certAuth, Server, Certificate) + FromCertificateStatus(p)
  }

  function FromServerHello(p: Params): seq<Event> {
    [Event(Server, ServerHello)] + if p.resumed then FromTicket(p) else FromServerCertificate(p)
  }

  function Script(p: Params): seq<Event> {
    [Event(Client, ClientHello)] + FromServerHello(p)
  }

  // ---- One side ----

  /** hs->wait, as far as it matters here: `Again` stands for every value that only returns to the
      caller (certificate, key, session, ticket and Channel ID lookups, and False Start). */
  datatype Wait = Ok | Flush | ReadMessage | ReadChangeCipherSpec | Again | Error

  /** What a callback or a lookup says: ssl_verify_ok, ssl_private_key_success and the like, or the
      values for retry and for failure. */
  datatype Outcome = Succeeded | Pending | Failed

  /** What the world answers to a step: the outcome of its lookup, whether the signature on the
      message read is valid, the content of a message to write, and whether False Start applies. */
  datatype Answer = Answer(outcome: Outcome, valid: bool, data: seq<bv8>, falseStart: bool)

  predicate Favourable(a: Answer) {
    a.outcome != Failed && a.valid
  }

  /** One side seen from outside: the rest of the script, a rank that its steps lower, what it
      waits for, the messages it has read but not taken, the flight it has not yet given to the
      transport, its transcript, and whether it reads and writes under the new keys. Seen from outside
      a side that has returned to its caller is one that may go on: `wait` is never Again. */
  datatype View = View(
    rest: seq<Event>, rank: nat, wait: Wait, inbox: seq<Msg>, outbox: seq<Item>, transcript: seq<Msg>,
    reading: bool, writing: bool)

  predicate NextFrom(v: View, w: Who) {
    v.rest != [] && v.rest[0].from == w
  }

  /** A side that waits for its peer is owed something, and has nothing left to flush. */
  predicate Placed(w: Who, v: View) {
    && v.wait != Error && v.wait != Again
    && (v.wait == ReadMessage ==> v.inbox == [] && NextFrom(v, Peer(w)) && v.rest[0].kind != ChangeCipherSpec)
    && (v.wait == ReadChangeCipherSpec ==> NextFrom(v, Peer(w)) && v.rest[0].kind == ChangeCipherSpec)
    && (v.outbox != [] ==> v.wait == Flush || NextFrom(v, w))
    && (v.rank == 0 ==> v.rest == [] && v.wait == Ok)
  }

  function Events(from: Who, items: seq<Item>): seq<Event> {
    if items == [] then [] else [EventOf(from, items[0])] + Events(from, items[1..])
  }

  function MessageIn(i: Item): seq<Msg> {
    if i.Hs? then [i.m] else []
  }

  function Messages(items: seq<Item>): seq<Msg> {
    if items == [] then []
    else MessageIn(items[0]) + Messages(items[1..])
  }

  /** A client certificate is empty exactly when the client has none. */
  predicate Genuine(p: Params, from: Who, m: Msg, before: seq<Msg>) {
    && (m.Fin? ==> m == Fin(from, before))
    && (m.Plain? ==> m.kind != Finished && m.kind != ChangeCipherSpec)
    && (KindOf(m) == Certificate ==> (m.data != [] <==> from == Server || p.clientCert))
  }

  /** Items sent after the transcript `before`: each Finished covers all that precedes it. */
  predicate AllGenuine(p: Params, from: Who, items: seq<Item>, before: seq<Msg>) {
    items != [] ==>
      if items[0].Ccs? then AllGenuine(p, from, items[1..], before)
      else Genuine(p, from, items[0].m, before) && AllGenuine(p, from, items[1..], before + [items[0].m])
  }

  /** The messages up to the ChangeCipherSpec are in the clear and the ones after it are not. */
  predicate SealedRight(items: seq<Item>, before: bool, after: bool) {
    if items == [] then before == after
    else if items[0].Ccs? then !before && SealedRight(items[1..], true, after)
    else items[0].sealed == before && SealedRight(items[1..], before, after)
  }

  /** What has arrived is what the script says comes next. */
  predicate Welcome(p: Params, w: Who, v: View) {
    v.inbox != [] ==>
      NextFrom(v, Peer(w)) && KindOf(v.inbox[0]) == v.rest[0].kind && Genuine(p, Peer(w), v.inbox[0], v.transcript)
  }

  predicate Blocks(a: View, b: View) {
    a.inbox == [] && b == a.(wait := ReadMessage)
  }

  /** A lookup that is not finished changes nothing. */
  predicate Retries(a: View, b: View) {
    b == a
  }

  /** Up to four items join the flight, and the transcript, or none. */
  predicate Sends(p: Params, w: Who, a: View, b: View) {
    && |a.outbox| <= |b.outbox| <= |a.outbox| + 4 && b.outbox[..|a.outbox|] == a.outbox
    && var items := b.outbox[|a.outbox|..];
    && a.rest == Events(w, items) + b.rest
    && b.transcript == a.transcript + Messages(items)
    && AllGenuine(p, w, items, a.transcript)
    && SealedRight(items, a.writing, b.writing)
    && b.inbox == a.inbox && b.reading == a.reading
  }

  /** One message is taken and joins the transcript. */
  predicate Takes(p: Params, w: Who, a: View, b: View) {
    && a.inbox != [] && b.inbox == a.inbox[1..]
    && a.rest == [Event(Peer(w), KindOf(a.inbox[0]))] + b.rest
    && b.transcript == a.transcript + [a.inbox[0]]
    && b.outbox == a.outbox && b.reading == a.reading && b.writing == a.writing
  }

  /** One step of the handshake state machine of side `w`. */
  predicate Moves(p: Params, w: Who, a: View, b: View) {
    && Placed(w, b)
    && (Blocks(a, b) || Retries(a, b) || (b.rank < a.rank && b.wait != ReadMessage && (Sends(p, w, a, b) || Takes(p, w, a, b))))
  }

  // ---- Flights grow one item at a time ----

  lemma Assoc<T>(a: seq<T>, b: seq<T>, c: seq<T>)
    ensures a + (b + c) == a + b + c
  {
  }

  lemma {:induction false} EventsAppend(from: Who, items: seq<Item>, i: Item)
    ensures Events(from, items + [i]) == Events(from, items) + [EventOf(from, i)]
    decreases |items|
  {
    if items == [] {
      assert [] + [i] == [i] && [i][1..] == [];
    } else {
      EventsAppend(from, items[1..], i);
      assert (items + [i])[1..] == items[1..] + [i];
    }
  }

  lemma {:induction false} MessagesAppend(items: seq<Item>, more: seq<Item>)
    ensures Messages(items + more) == Messages(items) + Messages(more)
    decreases |items|
  {
    if items == [] {
      assert [] + more == more;
    } else {
      MessagesAppend(items[1..], more);
      assert (items + more)[1..] == items[1..] + more;
      assert Messages(items + more) == MessageIn(items[0]) + Messages(items[1..] + more);
      Assoc(MessageIn(items[0]), Messages(items[1..]), Messages(more));
    }
  }

  lemma {:induction false} GenuineAppend(p: Params, from: Who, items: seq<Item>, more: seq<Item>, before: seq<Msg>)
    ensures AllGenuine(p, from, items + more, before) <==>
      AllGenuine(p, from, items, before) && AllGenuine(p, from, more, before + Messages(items))
    decreases |items|
  {
    if items == [] {
      assert [] + more == more && before + [] == before;
    } else {
      assert (items + more)[1..] == items[1..] + more;
      if items[0].Ccs? {
        GenuineAppend(p, from, items[1..], more, before);
        assert [] + Messages(items[1..]) == Messages(items[1..]);
      } else {
        GenuineAppend(p, from, items[1..], more, before + [items[0].m]);
        assert before + [items[0].m] + Messages(items[1..]) == before + ([items[0].m] + Messages(items[1..]));
      }
    }
  }

  lemma {:induction false} SealedAppend(items: seq<Item>, more: seq<Item>, before: bool, between: bool, after: bool)
    requires SealedRight(items, before, between) && SealedRight(more, between, after)
    ensures SealedRight(items + more, before, after)
    decreases |items|
  {
    if items == [] {
      assert [] + more == more;
    } else {
      assert (items + more)[1..] == items[1..] + more;
      SealedAppend(items[1..], more, if items[0].Ccs? then true else before, between, after);
    }
  }

  lemma SendsNothing(p: Params, w: Who, a: View, b: View)
    requires b.rest == a.rest && b.outbox == a.outbox && b.transcript == a.transcript
    requires b.inbox == a.inbox && b.reading == a.reading && b.writing == a.writing
    ensures Sends(p, w, a, b)
  {
    assert b.outbox[|a.outbox|..] == [];
    assert [] + b.rest == b.rest && a.transcript + [] == a.transcript;
  }

  /** Adding `i` to the flight takes `b` to `c`. */
  predicate Adds(p: Params, w: Who, b: View, c: View, i: Item) {
    && b.rest == [EventOf(w, i)] + c.rest
    && c.outbox == b.outbox + [i] && c.transcript == b.transcript + MessageIn(i)
    && (if i.Ccs? then !b.writing && c.writing else i.sealed == b.writing == c.writing && Genuine(p, w, i.m, b.transcript))
    && c.inbox == b.inbox && c.reading == b.reading
  }

  lemma SendsMore(p: Params, w: Who, a: View, b: View, c: View, i: Item)
    requires Sends(p, w, a, b) && |b.outbox| < |a.outbox| + 4 && Adds(p, w, b, c, i)
    ensures Sends(p, w, a, c)
  {
    hide Genuine, Messages, Events, AllGenuine, SealedRight, EventOf, MessageIn;
    var items := b.outbox[|a.outbox|..];
    LastOf(a.outbox, b.outbox, i);
    EventsAppend(w, items, i);
    MessagesAppend(items, [i]);
    OneItem(p, w, i, b.transcript, b.writing, c.writing);
    GenuineAppend(p, w, items, [i], a.transcript);
    SealedAppend(items, [i], a.writing, b.writing, c.writing);
    Assoc(Events(w, items), [EventOf(w, i)], c.rest);
    Assoc(a.transcript, Messages(items), MessageIn(i));
  }

  lemma LastOf(a: seq<Item>, b: seq<Item>, i: Item)
    requires |a| <= |b| && b[..|a|] == a
    ensures (b + [i])[|a|..] == b[|a|..] + [i] && (b + [i])[..|a|] == a
  {
  }

  lemma OneItem(p: Params, w: Who, i: Item, before: seq<Msg>, writing: bool, after: bool)
    requires if i.Ccs? then !writing && after else i.sealed == writing == after && Genuine(p, w, i.m, before)
    ensures Messages([i]) == MessageIn(i) && AllGenuine(p, w, [i], before) && SealedRight([i], writing, after)
  {
    hide Genuine;
    assert [i][1..] == [];
    assert MessageIn(i) + [] == MessageIn(i);
  }

  lemma SendsOne(p: Params, w: Who, a: View, b: View, i: Item)
    requires Adds(p, w, a, b, i)
    ensures Sends(p, w, a, b)
  {
    hide Adds, Sends;
    SendsNothing(p, w, a, a);
    SendsMore(p, w, a, a, b, i);
  }

  /** The events of a flight, from the front. */
  lemma OneEventMore(w: Who, i: Item, rest: seq<Item>, from: seq<Event>, to: seq<Event>)
    requires from == Events(w, rest) + to
    ensures [EventOf(w, i)] + from == Events(w, [i] + rest) + to
  {
    assert ([i] + rest)[1..] == rest;
    Assoc([EventOf(w, i)], Events(w, rest), to);
  }

  lemma NoEvents(w: Who, to: seq<Event>)
    ensures to == Events(w, []) + to
  {
  }

  lemma OneEvent(w: Who, m: Msg, sealed: bool)
    ensures Events(w, [Hs(m, sealed)]) == [Event(w, KindOf(m))]
  {
    assert [Hs(m, sealed)][1..] == [];
  }

  lemma JustOne(i: Item)
    ensures Messages([i]) == MessageIn(i)
  {
    assert [i][1..] == [];
    assert Messages([i]) == MessageIn(i) + Messages([]);
  }

  lemma NothingToAdd(v: View)
    ensures Messages([]) == [] && v.outbox + [] == v.outbox && v.transcript + [] == v.transcript
  {
  }

  /** `items` have been added to the flight since `before`; now `i` joins them. */
  lemma Adding(p: Params, w: Who, before: View, sofar: View, items: seq<Item>, i: Item, rest: seq<Event>) returns (more: View)
    requires Sends(p, w, before, sofar) && |sofar.outbox| < |before.outbox| + 4 && sofar.rest == [EventOf(w, i)] + rest
    requires sofar == before.(rest := sofar.rest, outbox := before.outbox + items, transcript := before.transcript + Messages(items),
      writing := sofar.writing)
    requires if i.Ccs? then !sofar.writing else i.sealed == sofar.writing && Genuine(p, w, i.m, sofar.transcript)
    ensures more == before.(rest := rest, outbox := before.outbox + (items + [i]),
      transcript := before.transcript + Messages(items + [i]), writing := i.Ccs? || sofar.writing)
    ensures Sends(p, w, before, more) && |more.outbox| == |sofar.outbox| + 1
  {
    hide Sends, Genuine, Messages;
    more := before.(rest := rest, outbox := before.outbox + (items + [i]),
      transcript := before.transcript + Messages(items + [i]), writing := i.Ccs? || sofar.writing);
    MessagesAppend(items, [i]);
    JustOne(i);
    Assoc(before.outbox, items, [i]);
    Assoc(before.transcript, Messages(items), MessageIn(i));
    SendsMore(p, w, before, sofar, more, i);
  }

  // ---- The five kinds of move, as a side makes them ----

  lemma MovesByBlocking(p: Params, w: Who, a: View)
    requires Placed(w, a) && a.wait == Ok && a.inbox == [] && a.rank > 0 && NextFrom(a, Peer(w)) && a.rest[0].kind != ChangeCipherSpec
    ensures Moves(p, w, a, a.(wait := ReadMessage))
  {
  }

  lemma MovesByRetrying(p: Params, w: Who, a: View)
    requires Placed(w, a)
    ensures Moves(p, w, a, a)
  {
  }

  predicate Lower(w: Who, a: View, b: View) {
    Placed(w, b) && b.rank < a.rank && b.wait != ReadMessage
  }

  lemma MovesSilently(p: Params, w: Who, a: View, b: View)
    requires Lower(w, a, b)
    requires b.rest == a.rest && b.outbox == a.outbox && b.transcript == a.transcript
    requires b.inbox == a.inbox && b.reading == a.reading && b.writing == a.writing
    ensures Moves(p, w, a, b)
  {
    hide Sends;
    SendsNothing(p, w, a, b);
  }

  lemma MovesBySending(p: Params, w: Who, a: View, b: View)
    requires Lower(w, a, b) && Sends(p, w, a, b)
    ensures Moves(p, w, a, b)
  {
  }

  lemma MovesByTaking(p: Params, w: Who, a: View, b: View, e: Event)
    requires Lower(w, a, b) && Welcome(p, w, a) && a.rest == [e] + b.rest
    requires a.inbox != [] && b.inbox == a.inbox[1..]
    requires b.transcript == a.transcript + [a.inbox[0]] && b.outbox == a.outbox && b.reading == a.reading && b.writing == a.writing
    ensures Moves(p, w, a, b)
  {
    hide Genuine;
    assert a.rest[0] == e;
  }

  lemma PlainIsGenuine(p: Params, w: Who, kind: Kind, data: seq<bv8>, before: seq<Msg>)
    requires kind !in {Finished, ChangeCipherSpec, Certificate}
    ensures Genuine(p, w, Plain(kind, data), before)
  {
  }

  lemma CertificateIsGenuine(p: Params, w: Who, chain: Msg, before: seq<Msg>)
    requires chain.Plain? && chain.kind == Certificate && (chain.data != [] <==> w == Server || p.clientCert)
    ensures Genuine(p, w, chain, before)
  {
  }

  lemma FinishedIsGenuine(p: Params, w: Who, before: seq<Msg>)
    ensures Genuine(p, w, Fin(w, before), before)
  {
  }

  lemma MovesBySendingOne(p: Params, w: Who, a: View, b: View, i: Item)
    requires Lower(w, a, b) && Adds(p, w, a, b, i)
    ensures Moves(p, w, a, b)
  {
    hide Adds, Sends;
    SendsOne(p, w, a, b, i);
    MovesBySending(p, w, a, b);
  }

  // ---- Several steps in a row ----

  predicate IsTrace(first: View, trace: seq<View>, last: View) {
    trace != [] && trace[0] == first && trace[|trace| - 1] == last
  }

  predicate AllWelcome(p: Params, w: Who, trace: seq<View>) {
    forall i | 0 <= i < |trace| - 1 :: Welcome(p, w, trace[i])
  }

  predicate AllMove(p: Params, w: Who, trace: seq<View>) {
    forall i | 0 <= i < |trace| - 1 :: Moves(p, w, trace[i], trace[i + 1])
  }

  lemma TraceGrows(p: Params, w: Who, trace: seq<View>, next: View)
    requires trace != []
    ensures AllWelcome(p, w, trace + [next]) <==> AllWelcome(p, w, trace) && Welcome(p, w, trace[|trace| - 1])
    ensures AllMove(p, w, trace) && Moves(p, w, trace[|trace| - 1], next) ==> AllMove(p, w, trace + [next])
  {
    hide Welcome, Moves;
    var longer := trace + [next];
    assert forall i | 0 <= i < |trace| :: longer[i] == trace[i];
  }

  lemma SameSends(p: Params, w: Who, a: View, b: View, c: View)
    requires Sends(p, w, a, b)
    requires c.rest == b.rest && c.outbox == b.outbox && c.transcript == b.transcript
    requires c.inbox == b.inbox && c.reading == b.reading && c.writing == b.writing
    ensures Sends(p, w, a, c)
  {
  }
}
