/** The client's state machine (handshake_client.cc). Each step says what it sends, takes and waits for;
    it is a move of the handshake script whenever what was read and answered is what the script says
    comes next; and it keeps the client safe whatever was read and answered. */
module ClientHandshake {
  import opened HandshakeScript
  import opened HandshakeLog

  datatype State =
    | StartConnect | EnterEarlyData | ReadServerHello | ReadServerCertificate | ReadCertificateStatus
    | VerifyServerCertificate | ReadServerKeyExchange | ReadCertificateRequest | ReadServerHelloDone
    | SendClientCertificate | SendClientKeyExchange | SendClientCertificateVerify | SendClientFinished
    | FinishFlight | ReadSessionTicket | ProcessChangeCipherSpec | ReadServerFinished | FinishHandshake | Done

  // ---- Where the script puts each state ----

  /** What a state stands for: the rest of the script, a rank that every step lowers, whether the
      server is known to have asked for a certificate, and the keys in use. */
  datatype Place = Place(rest: seq<Event>, rank: nat, asked: bool, opens: bool, seals: bool)

  /** Resumption visits the Finished states in the opposite order, so the rank depends on it. */
  function PlaceOf(p: Params, s: State): Place {
    match s
    case StartConnect => Place(Script(p), 18, false, false, false)
    case EnterEarlyData => Place(FromServerHello(p), 17, false, false, false)
    case ReadServerHello => Place(FromServerHello(p), 16, false, false, false)
    case ReadServerCertificate => Place(FromServerCertificate(p), 15, false, false, false)
    case ReadCertificateStatus => Place(FromCertificateStatus(p), 14, false, false, false)
    case VerifyServerCertificate => Place(FromServerKeyExchange(p), 13, false, false, false)
    case ReadServerKeyExchange => Place(FromServerKeyExchange(p), 12, false, false, false)
    case ReadCertificateRequest => Place(FromCertificateRequest(p), 11, false, false, false)
    case ReadServerHelloDone => Place(FromHelloDone(p), 10, p.certRequest, false, false)
    case SendClientCertificate => Place(FromClientCertificate(p), 9, p.certRequest, false, false)
    case SendClientKeyExchange => Place(FromClientKeyExchange(p), 8, p.certRequest, false, false)
    case SendClientCertificateVerify => Place(FromCertificateVerify(p), 7, p.certRequest, false, false)
    case SendClientFinished =>
      if p.resumed then Place(FromClientCcs(p), 3, false, true, false) else Place(FromClientCcs(p), 6, p.certRequest, false, false)
    case FinishFlight =>
      if p.resumed then Place([], 2, false, true, true) else Place(FromTicket(p), 5, p.certRequest, false, true)
    case ReadSessionTicket =>
      if p.resumed then Place(FromTicket(p), 6, false, false, false) else Place(FromTicket(p), 4, p.certRequest, false, true)
    case ProcessChangeCipherSpec =>
      if p.resumed then Place(FromServerFinished(p), 5, false, false, false)
      else Place(FromServerFinished(p), 3, p.certRequest, false, true)
    case ReadServerFinished =>
      if p.resumed then Place(FromServerFinished(p), 4, false, true, false)
      else Place(FromServerFinished(p), 2, p.certRequest, true, true)
    case FinishHandshake => Place([], 1, !p.resumed && p.certRequest, true, true)
    case Done => Place([], 0, !p.resumed && p.certRequest, true, true)
  }

  predicate FullOnly(s: State) {
    s in {ReadServerCertificate, ReadCertificateStatus, VerifyServerCertificate, ReadServerKeyExchange, ReadCertificateRequest,
          ReadServerHelloDone, SendClientCertificate, SendClientKeyExchange, SendClientCertificateVerify}
  }

  /** From state `s` to state `t` on the same terms: after `first`, if it is there. */
  predicate Leads(p: Params, s: State, t: State, there: bool, first: Event) {
    var a, b := PlaceOf(p, s), PlaceOf(p, t);
    && b.asked == a.asked && b.opens == a.opens && b.seals == a.seals
    && a.rest == (if there then [first] + b.rest else b.rest) && (b.rank == 0 ==> b.rest == [])
  }

  predicate Lowers(p: Params, s: State, t: State) {
    PlaceOf(p, t).rank < PlaceOf(p, s).rank
  }

  /** The server's message comes next, and so does none of the client's before it. */
  predicate Owed(p: Params, s: State) {
    var a := PlaceOf(p, s);
    a.rank > 0 && a.rest != [] && a.rest[0].from == Server && a.rest[0].kind != ChangeCipherSpec
  }

  predicate Comes(p: Params, s: State, kind: Kind) {
    PlaceOf(p, s).rest != [] && PlaceOf(p, s).rest[0].kind == kind
  }

  lemma StartPlaces(p: Params)
    ensures Lowers(p, StartConnect, EnterEarlyData) && Leads(p, StartConnect, EnterEarlyData, true, Event(Client, ClientHello))
    ensures Lowers(p, EnterEarlyData, ReadServerHello) && Leads(p, EnterEarlyData, ReadServerHello, false, Event(Client, ClientHello))
    ensures PlaceOf(p, EnterEarlyData).rank > 0
  {
    hide FromServerHello;
  }

  lemma HelloPlaces(p: Params)
    ensures Owed(p, ReadServerHello) && Comes(p, ReadServerHello, ServerHello)
    ensures var t := if p.resumed then ReadSessionTicket else ReadServerCertificate;
      Lowers(p, ReadServerHello, t) && Leads(p, ReadServerHello, t, true, Event(Server, ServerHello))
  {
    hide FromTicket, FromServerCertificate;
  }

  lemma CertificatePlaces(p: Params)
    ensures p.certAuth ==> Owed(p, ReadServerCertificate) && Comes(p, ReadServerCertificate, Certificate)
    ensures Lowers(p, ReadServerCertificate, ReadCertificateStatus)
    ensures Leads(p, ReadServerCertificate, ReadCertificateStatus, p.certAuth, Event(Server, Certificate))
  {
    hide FromCertificateStatus;
  }

  lemma StatusPlaces(p: Params)
    ensures Owed(p, ReadCertificateStatus) && (Comes(p, ReadCertificateStatus, CertificateStatus) <==> p.status)
    ensures Lowers(p, ReadCertificateStatus, VerifyServerCertificate)
    ensures Leads(p, ReadCertificateStatus, VerifyServerCertificate, p.status, Event(Server, CertificateStatus))
    ensures Lowers(p, VerifyServerCertificate, ReadServerKeyExchange)
    ensures Leads(p, VerifyServerCertificate, ReadServerKeyExchange, false, Event(Server, CertificateStatus))
  {
    KeyExchangePlaces(p);
    hide FromServerKeyExchange;
  }

  lemma KeyExchangePlaces(p: Params)
    ensures Owed(p, ReadServerKeyExchange) && (Comes(p, ReadServerKeyExchange, ServerKeyExchange) <==> p.keyExchange)
    ensures PlaceOf(p, ReadServerKeyExchange).rest[0].kind != CertificateStatus
    ensures Lowers(p, ReadServerKeyExchange, ReadCertificateRequest)
    ensures Leads(p, ReadServerKeyExchange, ReadCertificateRequest, p.keyExchange, Event(Server, ServerKeyExchange))
  {
    RequestPlaces(p);
    hide FromCertificateRequest;
  }

  lemma RequestPlaces(p: Params)
    ensures Owed(p, ReadCertificateRequest) && (Comes(p, ReadCertificateRequest, CertificateRequest) <==> p.certRequest)
    ensures !p.certRequest ==> Comes(p, ReadCertificateRequest, ServerHelloDone)
    ensures PlaceOf(p, ReadCertificateRequest).rest[0].kind !in {CertificateStatus, ServerKeyExchange}
    ensures Lowers(p, ReadCertificateRequest, ReadServerHelloDone)
    ensures var a, b := PlaceOf(p, ReadCertificateRequest), PlaceOf(p, ReadServerHelloDone);
      && a == Place(a.rest, 11, false, false, false) && b == Place(b.rest, 10, p.certRequest, false, false)
      && a.rest == if p.certRequest then [Event(Server, CertificateRequest)] + b.rest else b.rest
  {
    DonePlaces(p);
    hide FromHelloDone;
  }

  lemma DonePlaces(p: Params)
    ensures Owed(p, ReadServerHelloDone) && Comes(p, ReadServerHelloDone, ServerHelloDone)
    ensures Lowers(p, ReadServerHelloDone, SendClientCertificate)
    ensures Leads(p, ReadServerHelloDone, SendClientCertificate, true, Event(Server, ServerHelloDone))
  {
    hide FromClientCertificate;
  }

  lemma ClientCertificatePlaces(p: Params)
    ensures Lowers(p, SendClientCertificate, SendClientKeyExchange) && PlaceOf(p, SendClientKeyExchange).rank > 0
    ensures Leads(p, SendClientCertificate, SendClientKeyExchange, p.certRequest, Event(Client, Certificate))
    ensures Lowers(p, SendClientKeyExchange, SendClientCertificateVerify) && PlaceOf(p, SendClientCertificateVerify).rank > 0
    ensures Leads(p, SendClientKeyExchange, SendClientCertificateVerify, true, Event(Client, ClientKeyExchange))
    ensures NextIsClients(p, SendClientKeyExchange) && NextIsClients(p, SendClientCertificateVerify)
    ensures PlaceOf(p, SendClientCertificate).asked == PlaceOf(p, SendClientCertificateVerify).asked == p.certRequest
  {
    ProofPlaces(p);
    hide FromCertificateVerify;
  }

  predicate NextIsClients(p: Params, s: State) {
    PlaceOf(p, s).rest != [] && PlaceOf(p, s).rest[0].from == Client
  }

  lemma ProofPlaces(p: Params)
    ensures NextIsClients(p, SendClientCertificateVerify) && NextIsClients(p, SendClientFinished)
    ensures Lowers(p, SendClientCertificateVerify, SendClientFinished) && PlaceOf(p, SendClientFinished).rank > 0
    ensures !p.resumed ==>
      Leads(p, SendClientCertificateVerify, SendClientFinished, p.certRequest && p.clientCert, Event(Client, CertificateVerify))
    ensures PlaceOf(p, SendClientCertificateVerify).asked == p.certRequest
  {
    hide ServerFlight;
  }

  lemma ClientFlightParts(p: Params)
    ensures FromClientCcs(p) == [Event(Client, ChangeCipherSpec)] + FromNextProto(p)
    ensures FromNextProto(p) == (if p.npn then [Event(Client, NextProto)] + FromChannelId(p) else FromChannelId(p))
    ensures FromChannelId(p) ==
      (if p.channelId then [Event(Client, ChannelId)] + FromClientFinished(p) else FromClientFinished(p))
    ensures FromClientFinished(p) == [Event(Client, Finished)] + if p.resumed then [] else FromTicket(p)
  {
  }

  lemma FlightPart(p: Params)
    ensures var a, b := PlaceOf(p, SendClientFinished), PlaceOf(p, FinishFlight);
      && b.rank < a.rank && b.rank > 0 && b.asked == a.asked && b.opens == a.opens && !a.seals && b.seals
      && a.rest == FromClientCcs(p) && FromClientFinished(p) == [Event(Client, Finished)] + b.rest
  {
    hide FromClientCcs, ServerFlight;
    if !p.resumed {
      assert FromTicket(p) == ServerFlight(p) + [] == ServerFlight(p);
    }
  }

  lemma FinishPlaces(p: Params)
    ensures var t := if p.resumed then FinishHandshake else ReadSessionTicket;
      Lowers(p, FinishFlight, t) && Leads(p, FinishFlight, t, false, Event(Server, Finished))
  {
    hide FromTicket;
  }

  lemma EndPlaces(p: Params)
    ensures Lowers(p, FinishHandshake, Done) && Leads(p, FinishHandshake, Done, false, Event(Server, Finished))
  {
  }

  lemma TicketPart(p: Params)
    ensures var a, b := PlaceOf(p, ReadSessionTicket), PlaceOf(p, ProcessChangeCipherSpec);
      && b.rank < a.rank && b.rank > 0 && b.asked == a.asked && b.opens == a.opens && b.seals == a.seals
      && a.rest == (if p.ticket then [Event(Server, NewSessionTicket)] + FromServerCcs(p) else FromServerCcs(p))
      && FromServerCcs(p) == [Event(Server, ChangeCipherSpec)] + b.rest
    ensures p.ticket ==> Owed(p, ReadSessionTicket)
  {
    hide FromServerFinished;
    TicketParts(p);
  }

  lemma TicketParts(p: Params)
    ensures FromTicket(p) == If(p.ticket, Server, NewSessionTicket) + FromServerCcs(p)
  {
  }

  lemma ChangePlaces(p: Params)
    ensures var a, b := PlaceOf(p, ProcessChangeCipherSpec), PlaceOf(p, ReadServerFinished);
      && 0 < b.rank < a.rank && b.asked == a.asked && !a.opens && b.opens && b.seals == a.seals && a.rest == b.rest
  {
    hide FromServerFinished;
  }

  lemma FinishedPart(p: Params)
    ensures var t := if p.resumed then SendClientFinished else FinishHandshake;
      Lowers(p, ReadServerFinished, t) && Leads(p, ReadServerFinished, t, true, Event(Server, Finished))
    ensures Owed(p, ReadServerFinished) && Comes(p, ReadServerFinished, Finished)
  {
    assert ClientFlight(p) + [] == ClientFlight(p);
  }

  // ---- What each state may rely on, whatever the server does ----

  predicate PastVerification(s: State) {
    s in {ReadServerKeyExchange, ReadCertificateRequest, ReadServerHelloDone, SendClientCertificate, SendClientKeyExchange,
          SendClientCertificateVerify}
  }

  predicate PastFinished(p: Params, s: State) {
    s in {FinishHandshake, Done} || (p.resumed && s in {SendClientFinished, FinishFlight})
  }

  predicate PastChange(p: Params, s: State) {
    s == ReadServerFinished || PastFinished(p, s)
  }

  /** In a certificate cipher the server's certificate has been verified by the time of the key
      exchange and its signature by the time the key exchange was taken; and the server's Finished
      has been verified after the read keys changed. */
  ghost predicate Assured(p: Params, s: State, log: seq<Entry<State>>) {
    && (FullOnly(s) ==> !p.resumed)
    && (p.certAuth && PastVerification(s) ==> Granted(log, VerifyServerCertificate))
    && (p.certAuth ==> SaidAfter(log, ClientKeyExchange, VerifyServerCertificate) && Signed(log, ServerKeyExchange))
    && (PastChange(p, s) ==> KeysChanged in log)
    && (PastFinished(p, s) ==> FinishedVerified(log, Server))
  }

  /** State `t` relies on no more than state `s`. */
  predicate NoMore(p: Params, s: State, t: State) {
    && (FullOnly(t) ==> FullOnly(s) || !p.resumed) && (PastVerification(t) ==> PastVerification(s))
    && (PastChange(p, t) ==> PastChange(p, s)) && (PastFinished(p, t) ==> PastFinished(p, s))
  }

  lemma AssuredGoesOn(p: Params, s: State, t: State, log: seq<Entry<State>>)
    requires Assured(p, s, log) && NoMore(p, s, t)
    ensures Assured(p, t, log)
  {
  }

  /** A ClientKeyExchange may follow the verification, and a ServerKeyExchange a valid signature. */
  ghost predicate Due(p: Params, s: State, log: seq<Entry<State>>, e: Entry<State>) {
    && (IsSaid(e, ClientKeyExchange) && p.certAuth ==> PastVerification(s))
    && (e.Heard? && KindOf(e.m) == ServerKeyExchange && p.certAuth ==>
          log != [] && log[|log| - 1].Answered? && log[|log| - 1].answer.valid)
  }

  lemma AssuredGrows(p: Params, s: State, log: seq<Entry<State>>, e: Entry<State>)
    requires Assured(p, s, log) && Due(p, s, log, e)
    ensures Assured(p, s, log + [e])
  {
    hide Granted, SaidAfter, Signed, FinishedVerified;
    if p.certAuth {
      SaidAfterStays(log, e, ClientKeyExchange, VerifyServerCertificate);
      SignedStays(log, e, ServerKeyExchange);
      if PastVerification(s) {
        GrantedStays(log, e, VerifyServerCertificate);
      }
    }
    if PastFinished(p, s) {
      FinishedStays(log, e, Server);
    }
  }

  lemma VerificationCounts(p: Params, log: seq<Entry<State>>, a: Answer)
    requires Assured(p, VerifyServerCertificate, log)
    requires p.certAuth ==> Last(log, VerifyServerCertificate, a) && a.outcome == Succeeded
    ensures Assured(p, ReadServerKeyExchange, log)
  {
    hide SaidAfter, Signed, FinishedVerified;
  }

  lemma ChangeCounts(p: Params, log: seq<Entry<State>>)
    requires Assured(p, ProcessChangeCipherSpec, log)
    ensures Assured(p, ReadServerFinished, log + [KeysChanged])
  {
    hide Granted, SaidAfter, Signed, FinishedVerified;
    AssuredGrows(p, ProcessChangeCipherSpec, log, KeysChanged);
    assert (log + [KeysChanged])[|log|] == KeysChanged;
  }

  lemma FinishedCounts(p: Params, log: seq<Entry<State>>)
    requires Assured(p, ReadServerFinished, log)
    ensures Assured(p, if p.resumed then SendClientFinished else FinishHandshake, log + [Heard(Fin(Server, Hashed(log)))])
  {
    hide Granted, SaidAfter, Signed, FinishedVerified;
    AssuredGrows(p, ReadServerFinished, log, Heard(Fin(Server, Hashed(log))));
    FinishedNow(log, Server);
  }

  // ---- What the steps send ----

  /** An empty message stands for no certificate. */
  function ClientChain(p: Params, a: Answer): Msg {
    Plain(Certificate, if p.clientCert then [1] + a.data else [])
  }

  /** What goes before the Finished. */
  function ClientExtras(p: Params, a: Answer): seq<Item> {
    [Ccs] + (if p.npn then [Hs(Plain(NextProto, a.data), true)] else [])
    + if p.channelId then [Hs(Plain(ChannelId, a.data), true)] else []
  }

  /** ChangeCipherSpec, NextProto, ChannelID and a Finished over all that was hashed before it. */
  function FinishedFlight(p: Params, a: Answer, before: seq<Msg>): seq<Item> {
    ClientExtras(p, a) + [Hs(Fin(Client, before + Messages(ClientExtras(p, a))), true)]
  }

  /** The same flight, as the script has it. */
  lemma FinishedFlightSends(p: Params, a: Answer, before: View, after: View)
    requires before.rest == FromClientCcs(p) && !before.writing && FromClientFinished(p) == [Event(Client, Finished)] + after.rest
    requires after == before.(rest := after.rest, outbox := before.outbox + FinishedFlight(p, a, before.transcript),
      transcript := before.transcript + Messages(FinishedFlight(p, a, before.transcript)), writing := true)
    ensures Sends(p, Client, before, after)
  {
    hide Sends, Genuine, FromClientCcs, FromNextProto, FromChannelId, FromClientFinished, Messages;
    var most := ExtrasSend(p, a, before);
    var fin := Fin(Client, most.transcript);
    FinishedIsGenuine(p, Client, most.transcript);
    assert after.outbox == most.outbox + [Hs(fin, true)];
    MessagesAppend(ClientExtras(p, a), [Hs(fin, true)]);
    JustOne(Hs(fin, true));
    Assoc(before.transcript, Messages(ClientExtras(p, a)), [fin]);
    SendsMore(p, Client, before, most, after, Hs(fin, true));
  }

  lemma ExtrasSend(p: Params, a: Answer, before: View) returns (most: View)
    requires before.rest == FromClientCcs(p) && !before.writing
    ensures most == before.(rest := FromClientFinished(p), outbox := before.outbox + ClientExtras(p, a),
      transcript := before.transcript + Messages(ClientExtras(p, a)), writing := true)
    ensures Sends(p, Client, before, most) && |most.outbox| <= |before.outbox| + 3
  {
    hide Sends, Genuine, FromClientCcs, FromNextProto, FromChannelId, FromClientFinished, Messages;
    ClientFlightParts(p);
    var none := before;
    SendsNothing(p, Client, before, none);
    NothingToAdd(before);
    most := Adding(p, Client, before, none, [], Ccs, FromNextProto(p));
    var items := [] + [Ccs];
    if p.npn {
      PlainIsGenuine(p, Client, NextProto, a.data, most.transcript);
      most := Adding(p, Client, before, most, items, Hs(Plain(NextProto, a.data), true), FromChannelId(p));
      items := items + [Hs(Plain(NextProto, a.data), true)];
    }
    if p.channelId {
      PlainIsGenuine(p, Client, ChannelId, a.data, most.transcript);
      most := Adding(p, Client, before, most, items, Hs(Plain(ChannelId, a.data), true), FromClientFinished(p));
      items := items + [Hs(Plain(ChannelId, a.data), true)];
    }
    assert items == ClientExtras(p, a);
  }

  // ---- The flow of a handshake with any server at all ----

  /** What is still to come in a state; the server's ChangeCipherSpec counts once the keys have changed. */
  function ToCome(p: Params, s: State): seq<Event> {
    match s
    case StartConnect => Script(p)
    case EnterEarlyData => FromServerHello(p)
    case ReadServerHello => FromServerHello(p)
    case ReadServerCertificate => FromServerCertificate(p)
    case ReadCertificateStatus => FromCertificateStatus(p)
    case VerifyServerCertificate => FromServerKeyExchange(p)
    case ReadServerKeyExchange => FromServerKeyExchange(p)
    case ReadCertificateRequest => FromCertificateRequest(p)
    case ReadServerHelloDone => FromHelloDone(p)
    case SendClientCertificate => FromClientCertificate(p)
    case SendClientKeyExchange => FromClientKeyExchange(p)
    case SendClientCertificateVerify => FromCertificateVerify(p)
    case SendClientFinished => FromClientCcs(p)
    case FinishFlight => if p.resumed then [] else FromTicket(p)
    case ReadSessionTicket => FromTicket(p)
    case ProcessChangeCipherSpec => FromServerCcs(p)
    case ReadServerFinished => FromServerFinished(p)
    case FinishHandshake => []
    case Done => []
  }

  lemma StillToCome(p: Params, s: State)
    ensures ToCome(p, s) == if s == ProcessChangeCipherSpec then FromServerCcs(p) else PlaceOf(p, s).rest
  {
  }

  /** The client's own choices fit together, whatever the server does. */
  predicate OwnTerms(p: Params) {
    p.ocsp ==> p.certAuth && !p.resumed
  }

  /** What is up to the server: whether it sends a CertificateStatus and a ServerKeyExchange, and whether it
      asks for a certificate. `q` is a server as it may be, given what is known in this state. */
  predicate Possible(s: State, met: Params, q: Params) {
    && Alike(met, q) && (PastStatus(s) ==> q.status == met.status)
    && (PastKeyExchange(s) ==> q.keyExchange == met.keyExchange) && (PastRequest(s) ==> q.certRequest == met.certRequest)
  }

  /** The same terms, but for what is up to the server. */
  predicate Alike(p: Params, q: Params) {
    && q.resumed == p.resumed && q.certAuth == p.certAuth && q.keyRequired == p.keyRequired && q.clientCert == p.clientCert
    && q.ocsp == p.ocsp && q.ticket == p.ticket && q.npn == p.npn && q.channelId == p.channelId
    && q.clientCertRequired == p.clientCertRequired
  }

  predicate PastStatus(s: State) {
    !(s.StartConnect? || s.EnterEarlyData? || s.ReadServerHello? || s.ReadServerCertificate? || s.ReadCertificateStatus?)
  }

  predicate PastKeyExchange(s: State) {
    PastStatus(s) && !(s.VerifyServerCertificate? || s.ReadServerKeyExchange?)
  }

  predicate PastRequest(s: State) {
    PastKeyExchange(s) && !s.ReadCertificateRequest?
  }

  /** Before anything is known of the server. */
  function Unmet(p: Params): Params {
    p.(status := false, keyExchange := p.keyRequired, certRequest := false, clientCertRequired := false)
  }

  /** `met` is the client's own part of the terms, with what it has learned of the server's. */
  predicate Meets(p: Params, met: Params) {
    Alike(Unmet(p), met)
  }

  ghost predicate On(p: Params, s: State, log: seq<Entry<State>>) {
    Flow(Client, log) + ToCome(p, s) == Script(p)
  }

  /** The flow follows the script of every server that this one may be. */
  ghost predicate Follows(p: Params, met: Params, s: State, asked: bool, log: seq<Entry<State>>) {
    OwnTerms(p) ==>
      && Meets(p, met) && Compatible(met) && asked == (PastRequest(s) && met.certRequest)
      && forall q | Possible(s, met, q) :: On(q, s, log)
  }

  lemma NothingAssured(p: Params)
    ensures Assured(p, StartConnect, [])
  {
    hide Granted, FinishedVerified;
  }

  lemma StartsFollowing(p: Params)
    ensures Follows(p, Unmet(p), StartConnect, false, [])
  {
    hide Script;
    forall q
      ensures On(q, StartConnect, [])
    {
      assert [] + Script(q) == Script(q);
    }
  }

  lemma Onward(p: Params, s: State, t: State, log: seq<Entry<State>>, more: seq<Event>, next: seq<Entry<State>>)
    requires On(p, s, log) && Flow(Client, next) == Flow(Client, log) + more && ToCome(p, s) == more + ToCome(p, t)
    ensures On(p, t, next)
  {
    hide Script, ToCome;
    Assoc(Flow(Client, log), more, ToCome(p, t));
  }

  lemma FinishedFlightEvents(p: Params, a: Answer, before: seq<Msg>)
    ensures FromClientCcs(p) == Events(Client, FinishedFlight(p, a, before)) + if p.resumed then [] else FromTicket(p)
  {
    hide FromClientCcs, FromNextProto, FromChannelId, FromClientFinished, FromTicket, Messages, Events;
    ClientFlightParts(p);
    var to := if p.resumed then [] else FromTicket(p);
    var fin := Hs(Fin(Client, before + Messages(ClientExtras(p, a))), true);
    var npn := if p.npn then [Hs(Plain(NextProto, a.data), true)] else [];
    var id := if p.channelId then [Hs(Plain(ChannelId, a.data), true)] else [];
    NoEvents(Client, to);
    OneEventMore(Client, fin, [], to, to);
    MaybeOneMore(p.channelId, Hs(Plain(ChannelId, a.data), true), [fin] + [], FromClientFinished(p), FromChannelId(p), to);
    MaybeOneMore(p.npn, Hs(Plain(NextProto, a.data), true), id + ([fin] + []), FromChannelId(p), FromNextProto(p), to);
    OneEventMore(Client, Ccs, npn + (id + ([fin] + [])), FromNextProto(p), to);
    InOneFlight([Ccs], npn, id, fin);
  }

  lemma MaybeOneMore(there: bool, i: Item, rest: seq<Item>, from: seq<Event>, all: seq<Event>, to: seq<Event>)
    requires from == Events(Client, rest) + to && all == if there then [EventOf(Client, i)] + from else from
    ensures all == Events(Client, (if there then [i] else []) + rest) + to
  {
    hide Events;
    if there {
      OneEventMore(Client, i, rest, from, to);
    } else {
      assert [] + rest == rest;
    }
  }

  lemma InOneFlight(a: seq<Item>, b: seq<Item>, c: seq<Item>, i: Item)
    ensures a + (b + (c + ([i] + []))) == a + b + c + [i]
  {
    assert [i] + [] == [i];
    assert a + b + c + [i] == a + (b + (c + [i]));
  }

  // ---- One step of the flow ----

  datatype Moment = Moment(state: State, inbox: seq<Msg>, transcript: seq<Msg>, asked: bool, writing: bool, log: seq<Entry<State>>)

  ghost predicate Rests(x: Moment, y: Moment) {
    y.state == x.state && y.log == x.log && y.asked == x.asked
  }

  ghost predicate Passes(x: Moment, y: Moment, s: State) {
    y.state == s && y.log == x.log && y.asked == x.asked
  }

  ghost predicate Hears(x: Moment, y: Moment, s: State) {
    x.inbox != [] && y.state == s && y.log == x.log + [Heard(x.inbox[0])]
  }

  ghost predicate Says(x: Moment, y: Moment, items: seq<Item>, s: State) {
    y.state == s && y.log == x.log + SaidAll(items) && y.asked == x.asked
  }

  predicate Next(x: Moment, kind: Kind) {
    x.inbox != [] && KindOf(x.inbox[0]) == kind
  }

  ghost predicate Reads(x: Moment, y: Moment, kind: Kind, s: State) {
    Rests(x, y) || (Next(x, kind) && Hears(x, y, s) && y.asked == x.asked)
  }

  /** The step due at moment `x`, with what the contracts of the steps say of the flow. */
  ghost predicate Did(p: Params, a: Answer, x: Moment, y: Moment) {
    match x.state
    case StartConnect => Says(x, y, [Hs(Plain(ClientHello, a.data), x.writing)], EnterEarlyData)
    case EnterEarlyData => Passes(x, y, ReadServerHello)
    case ReadServerHello => Reads(x, y, ServerHello, if p.resumed then ReadSessionTicket else ReadServerCertificate)
    case ReadServerCertificate =>
      if !p.certAuth then Passes(x, y, ReadCertificateStatus) else Reads(x, y, Certificate, ReadCertificateStatus)
    case ReadCertificateStatus =>
      if !p.ocsp then Passes(x, y, VerifyServerCertificate)
      else Reads(x, y, CertificateStatus, VerifyServerCertificate) || Passes(x, y, VerifyServerCertificate)
    case VerifyServerCertificate => Rests(x, y) || Passes(x, y, ReadServerKeyExchange)
    case ReadServerKeyExchange =>
      || (Reads(x, y, ServerKeyExchange, ReadCertificateRequest) && (p.certAuth && |y.log| > |x.log| ==> p.keyRequired))
      || (!p.keyRequired && Passes(x, y, ReadCertificateRequest))
    case ReadCertificateRequest =>
      || Rests(x, y) || Passes(x, y, ReadServerHelloDone)
      || (p.certAuth && Next(x, CertificateRequest) && Hears(x, y, ReadServerHelloDone) && y.asked)
    case ReadServerHelloDone => Reads(x, y, ServerHelloDone, SendClientCertificate)
    case SendClientCertificate =>
      if !x.asked then Passes(x, y, SendClientKeyExchange)
      else Rests(x, y) || Says(x, y, [Hs(ClientChain(p, a), x.writing)], SendClientKeyExchange)
    case SendClientKeyExchange => Says(x, y, [Hs(Plain(ClientKeyExchange, a.data), x.writing)], SendClientCertificateVerify)
    case SendClientCertificateVerify =>
      if !x.asked || !p.clientCert then Passes(x, y, SendClientFinished)
      else Rests(x, y) || Says(x, y, [Hs(Plain(CertificateVerify, a.data), x.writing)], SendClientFinished)
    case SendClientFinished => Rests(x, y) || Says(x, y, FinishedFlight(p, a, x.transcript), FinishFlight)
    case FinishFlight => Passes(x, y, if p.resumed then FinishHandshake else ReadSessionTicket)
    case ReadSessionTicket =>
      if !p.ticket then Passes(x, y, ProcessChangeCipherSpec) else Reads(x, y, NewSessionTicket, ProcessChangeCipherSpec)
    case ProcessChangeCipherSpec => y.state == ReadServerFinished && y.log == x.log + [KeysChanged] && y.asked == x.asked
    case ReadServerFinished =>
      && Reads(x, y, Finished, if p.resumed then SendClientFinished else FinishHandshake)
      && (|y.log| > |x.log| ==> x.inbox != [] && x.inbox[0] == Fin(Server, x.transcript))
    case FinishHandshake => Passes(x, y, Done)
    case Done => false
  }

  /** What a step tells of the server. */
  ghost function Learn(met: Params, x: Moment, y: Moment): Params {
    Params(met.resumed, met.certAuth, met.keyRequired, IsSo(x, y, ReadServerKeyExchange, met.keyExchange),
      IsSo(x, y, ReadCertificateRequest, met.certRequest), met.clientCert, met.clientCertRequired, met.ocsp,
      IsSo(x, y, ReadCertificateStatus, met.status), met.ticket, met.npn, met.channelId)
  }

  /** A question is answered by a message where its state is left. */
  ghost predicate IsSo(x: Moment, y: Moment, s: State, before: bool) {
    if Leaves(x, y, s) then |y.log| > |x.log| else before
  }

  predicate Leaves(x: Moment, y: Moment, s: State) {
    x.state == s && y.state != s
  }

  /** The step taken is the next part of the flow. */
  lemma StepFollows(p: Params, met: Params, a: Answer, x: Moment, y: Moment)
    requires Did(p, a, x, y) && Follows(p, met, x.state, x.asked, x.log) && (FullOnly(x.state) ==> !p.resumed)
    ensures Follows(p, Learn(met, x, y), y.state, y.asked, y.log)
  {
    hide On, Did;
    if OwnTerms(p) {
      Learned(p, met, a, x, y);
      forall q | Possible(y.state, Learn(met, x, y), q)
        ensures On(q, y.state, y.log)
      {
        StillPossible(p, met, a, x, y, q);
        IsAtPart(p, met, q, a, x, y);
        NextPart(p, q, a, x, y);
      }
    }
  }

  /** The states that come to know something of the server are left for good. */
  lemma Forward(p: Params, a: Answer, x: Moment, y: Moment)
    requires Did(p, a, x, y)
    ensures PastStatus(x.state) ==> PastStatus(y.state)
    ensures PastKeyExchange(x.state) ==> PastKeyExchange(y.state)
    ensures PastRequest(x.state) ==> PastRequest(y.state)
    ensures y.state == x.state || (x.state.ReadCertificateRequest? ==> y.state.ReadServerHelloDone?)
    ensures y.asked == x.asked || (x.state.ReadCertificateRequest? && y.state != x.state)
  {
    hide FinishedFlight, SaidAll, ClientChain, KindOf;
  }

  lemma Learned(p: Params, met: Params, a: Answer, x: Moment, y: Moment)
    requires Did(p, a, x, y) && OwnTerms(p) && Meets(p, met) && Compatible(met) && (FullOnly(x.state) ==> !p.resumed)
    requires x.asked == (PastRequest(x.state) && met.certRequest)
    ensures var now := Learn(met, x, y);
      Meets(p, now) && Compatible(now) && y.asked == (PastRequest(y.state) && now.certRequest)
  {
    hide Did, FullOnly, Learn, PastRequest, Alike;
    LearnsOnly(met, x, y);
    AlikeOn(Unmet(p), met, Learn(met, x, y));
    if y.state != x.state && (x.state.ReadCertificateStatus? || x.state.ReadServerKeyExchange? || x.state.ReadCertificateRequest?) {
      AnswerLearned(p, met, a, x, y);
    } else {
      LearnsNothing(met, x, y);
      NothingAsked(p, met, a, x, y);
    }
  }

  lemma LearnsNothing(met: Params, x: Moment, y: Moment)
    requires y.state == x.state || !(x.state.ReadCertificateStatus? || x.state.ReadServerKeyExchange? || x.state.ReadCertificateRequest?)
    ensures Learn(met, x, y) == met
  {
  }

  lemma AnswerLearned(p: Params, met: Params, a: Answer, x: Moment, y: Moment)
    requires Did(p, a, x, y) && OwnTerms(p) && Meets(p, met) && Compatible(met) && (FullOnly(x.state) ==> !p.resumed)
    requires x.asked == (PastRequest(x.state) && met.certRequest) && y.state != x.state
    requires x.state.ReadCertificateStatus? || x.state.ReadServerKeyExchange? || x.state.ReadCertificateRequest?
    ensures Compatible(Learn(met, x, y)) && y.asked == (PastRequest(y.state) && Learn(met, x, y).certRequest)
  {
    hide Did, FullOnly;
    Forward(p, a, x, y);
    if x.state.ReadCertificateStatus? {
      StatusLearned(p, a, x, y);
    } else if x.state.ReadServerKeyExchange? {
      KeyExchangeLearned(p, a, x, y);
    } else {
      RequestLearned(p, a, x, y);
    }
  }

  lemma StatusLearned(p: Params, a: Answer, x: Moment, y: Moment)
    requires Did(p, a, x, y) && x.state == ReadCertificateStatus && y.state != x.state
    ensures y.state == VerifyServerCertificate && (|y.log| > |x.log| ==> p.ocsp)
  {
  }

  lemma KeyExchangeLearned(p: Params, a: Answer, x: Moment, y: Moment)
    requires Did(p, a, x, y) && x.state == ReadServerKeyExchange && y.state != x.state
    ensures y.state == ReadCertificateRequest && (p.certAuth && |y.log| > |x.log| ==> p.keyRequired) && (p.keyRequired ==> |y.log| > |x.log|)
  {
  }

  lemma RequestLearned(p: Params, a: Answer, x: Moment, y: Moment)
    requires Did(p, a, x, y) && x.state == ReadCertificateRequest && y.state != x.state && !x.asked
    requires FullOnly(x.state) ==> !p.resumed
    ensures y.state == ReadServerHelloDone && y.asked == (|y.log| > |x.log|) && (y.asked ==> p.certAuth && !p.resumed)
  {
  }

  /** Nowhere else does a server ask for anything; a resumed handshake passes the question by. */
  lemma NothingAsked(p: Params, met: Params, a: Answer, x: Moment, y: Moment)
    requires Did(p, a, x, y)
    requires y.state == x.state || !(x.state.ReadCertificateStatus? || x.state.ReadServerKeyExchange? || x.state.ReadCertificateRequest?)
    requires Compatible(met) && met.resumed == p.resumed && x.asked == (PastRequest(x.state) && met.certRequest)
    ensures y.asked == (PastRequest(y.state) && met.certRequest)
  {
    hide FinishedFlight, SaidAll, ClientChain, KindOf;
  }

  /** Each question is answered in one state. */
  lemma LearnsOnly(met: Params, x: Moment, y: Moment)
    ensures var now := Learn(met, x, y);
      && Alike(met, now) && (!x.state.ReadCertificateStatus? ==> now.status == met.status)
      && (!x.state.ReadServerKeyExchange? ==> now.keyExchange == met.keyExchange)
      && (!x.state.ReadCertificateRequest? ==> now.certRequest == met.certRequest)
  {
  }

  lemma AlikeOn(p: Params, q: Params, t: Params)
    requires Alike(p, q) && Alike(q, t)
    ensures Alike(p, t)
  {
  }

  lemma StillPossible(p: Params, met: Params, a: Answer, x: Moment, y: Moment, q: Params)
    requires Did(p, a, x, y) && Possible(y.state, Learn(met, x, y), q)
    ensures Possible(x.state, met, q)
  {
    hide Did, Learn, Alike;
    Forward(p, a, x, y);
    LearnsOnly(met, x, y);
    AlikeOn(met, Learn(met, x, y), q);
  }

  /** What a step has to do with the script of a server that this one may be: they share the client's terms,
      and what the step tells of the server is true of it. */
  ghost predicate AtPart(p: Params, q: Params, a: Answer, x: Moment, y: Moment) {
    && Did(p, a, x, y) && On(q, x.state, x.log)
    && q.resumed == p.resumed && q.certAuth == p.certAuth && q.clientCert == p.clientCert && q.ticket == p.ticket
    && q.npn == p.npn && q.channelId == p.channelId
    && (Leaves(x, y, ReadCertificateStatus) ==> q.status == (|y.log| > |x.log|))
    && (Leaves(x, y, ReadServerKeyExchange) ==> q.keyExchange == (|y.log| > |x.log|))
    && (Leaves(x, y, ReadCertificateRequest) ==> q.certRequest == (|y.log| > |x.log|))
    && (PastRequest(x.state) ==> x.asked == q.certRequest)
  }

  lemma IsAtPart(p: Params, met: Params, q: Params, a: Answer, x: Moment, y: Moment)
    requires Did(p, a, x, y) && Meets(p, met) && On(q, x.state, x.log)
    requires Possible(x.state, met, q) && Possible(y.state, Learn(met, x, y), q) && x.asked == (PastRequest(x.state) && met.certRequest)
    ensures AtPart(p, q, a, x, y)
  {
    hide Did, On, Learn;
    Forward(p, a, x, y);
    LearnsWhat(p, met, a, x, y);
    LearnsOnly(met, x, y);
  }

  /** The answers, and where they are known from then on. */
  lemma LearnsWhat(p: Params, met: Params, a: Answer, x: Moment, y: Moment)
    requires Did(p, a, x, y)
    ensures Leaves(x, y, ReadCertificateStatus) ==> PastStatus(y.state) && Learn(met, x, y).status == (|y.log| > |x.log|)
    ensures Leaves(x, y, ReadServerKeyExchange) ==> PastKeyExchange(y.state) && Learn(met, x, y).keyExchange == (|y.log| > |x.log|)
    ensures Leaves(x, y, ReadCertificateRequest) ==> PastRequest(y.state) && Learn(met, x, y).certRequest == (|y.log| > |x.log|)
  {
    hide Did, Learn;
    AnswersTaken(met, x, y);
    if Leaves(x, y, ReadCertificateStatus) {
      StatusLearned(p, a, x, y);
    }
    if Leaves(x, y, ReadServerKeyExchange) {
      KeyExchangeLearned(p, a, x, y);
    }
    if Leaves(x, y, ReadCertificateRequest) {
      Forward(p, a, x, y);
    }
  }

  lemma AnswersTaken(met: Params, x: Moment, y: Moment)
    ensures Learn(met, x, y).status == IsSo(x, y, ReadCertificateStatus, met.status)
    ensures Learn(met, x, y).keyExchange == IsSo(x, y, ReadServerKeyExchange, met.keyExchange)
    ensures Learn(met, x, y).certRequest == IsSo(x, y, ReadCertificateRequest, met.certRequest)
  {
    hide IsSo;
  }

  lemma NextPart(p: Params, q: Params, a: Answer, x: Moment, y: Moment)
    requires AtPart(p, q, a, x, y)
    ensures On(q, y.state, y.log)
  {
    hide AtPart, On;
    if x.state in {StartConnect, EnterEarlyData, ReadServerHello, ReadServerCertificate, ReadCertificateStatus, VerifyServerCertificate} {
      PartHello(p, q, a, x, y);
    } else if x.state in {ReadServerKeyExchange, ReadCertificateRequest, ReadServerHelloDone} {
      PartServer(p, q, a, x, y);
    } else if x.state in {SendClientCertificate, SendClientKeyExchange, SendClientCertificateVerify, SendClientFinished} {
      PartSent(p, q, a, x, y);
    } else if x.state.FinishFlight? || x.state.ReadSessionTicket? || x.state.ProcessChangeCipherSpec? {
      PartChange(p, q, a, x, y);
    } else {
      PartLast(p, q, a, x, y);
    }
  }

  lemma SaidThese(q: Params, x: Moment, y: Moment, items: seq<Item>)
    requires y.log == x.log + SaidAll(items) && On(q, x.state, x.log) && ToCome(q, x.state) == Events(Client, items) + ToCome(q, y.state)
    ensures On(q, y.state, y.log)
  {
    hide On, ToCome;
    FlowSaid(Client, x.log, items);
    Onward(q, x.state, y.state, x.log, Events(Client, items), y.log);
  }

  lemma HeardThis(q: Params, x: Moment, y: Moment)
    requires x.inbox != [] && y.log == x.log + [Heard(x.inbox[0])] && On(q, x.state, x.log)
    requires ToCome(q, x.state) == [Event(Server, KindOf(x.inbox[0]))] + ToCome(q, y.state)
    ensures On(q, y.state, y.log)
  {
    hide On, ToCome;
    FlowGrows(Client, x.log, Heard(x.inbox[0]));
    Onward(q, x.state, y.state, x.log, [Event(Server, KindOf(x.inbox[0]))], y.log);
  }

  lemma Unmoved(q: Params, x: Moment, y: Moment)
    requires y.log == x.log && On(q, x.state, x.log) && ToCome(q, x.state) == ToCome(q, y.state)
    ensures On(q, y.state, y.log)
  {
  }

  lemma PartHello(p: Params, q: Params, a: Answer, x: Moment, y: Moment)
    requires AtPart(p, q, a, x, y)
    requires x.state in {StartConnect, EnterEarlyData, ReadServerHello, ReadServerCertificate, ReadCertificateStatus, VerifyServerCertificate}
    ensures On(q, y.state, y.log)
  {
    hide On, ToCome, Events, SaidAll;
    HelloParts(q);
    if x.state == StartConnect {
      OneEvent(Client, Plain(ClientHello, a.data), x.writing);
      SaidThese(q, x, y, [Hs(Plain(ClientHello, a.data), x.writing)]);
    } else if |y.log| == |x.log| {
      Unmoved(q, x, y);
    } else {
      HeardThis(q, x, y);
    }
  }

  /** What is still to come, up to the server's certificate. */
  lemma HelloParts(p: Params)
    ensures ToCome(p, StartConnect) == [Event(Client, ClientHello)] + ToCome(p, EnterEarlyData)
    ensures ToCome(p, EnterEarlyData) == ToCome(p, ReadServerHello)
    ensures ToCome(p, ReadServerHello) ==
      [Event(Server, ServerHello)] + ToCome(p, if p.resumed then ReadSessionTicket else ReadServerCertificate)
    ensures ToCome(p, ReadServerCertificate) ==
      if p.certAuth then [Event(Server, Certificate)] + ToCome(p, ReadCertificateStatus) else ToCome(p, ReadCertificateStatus)
    ensures ToCome(p, ReadCertificateStatus) ==
      if p.status then [Event(Server, CertificateStatus)] + ToCome(p, VerifyServerCertificate) else ToCome(p, VerifyServerCertificate)
    ensures ToCome(p, VerifyServerCertificate) == ToCome(p, ReadServerKeyExchange)
  {
    hide FromTicket, FromServerKeyExchange;
  }

  lemma PartServer(p: Params, q: Params, a: Answer, x: Moment, y: Moment)
    requires AtPart(p, q, a, x, y) && x.state in {ReadServerKeyExchange, ReadCertificateRequest, ReadServerHelloDone}
    ensures On(q, y.state, y.log)
  {
    hide On, ToCome;
    ServerParts(q);
    if |y.log| == |x.log| {
      Unmoved(q, x, y);
    } else {
      HeardThis(q, x, y);
    }
  }

  /** What is still to come, up to the ServerHelloDone. */
  lemma ServerParts(p: Params)
    ensures ToCome(p, ReadServerKeyExchange) ==
      if p.keyExchange then [Event(Server, ServerKeyExchange)] + ToCome(p, ReadCertificateRequest) else ToCome(p, ReadCertificateRequest)
    ensures ToCome(p, ReadCertificateRequest) ==
      if p.certRequest then [Event(Server, CertificateRequest)] + ToCome(p, ReadServerHelloDone) else ToCome(p, ReadServerHelloDone)
    ensures ToCome(p, ReadServerHelloDone) == [Event(Server, ServerHelloDone)] + ToCome(p, SendClientCertificate)
  {
    hide FromClientCertificate;
  }

  lemma PartSent(p: Params, q: Params, a: Answer, x: Moment, y: Moment)
    requires AtPart(p, q, a, x, y)
    requires x.state in {SendClientCertificate, SendClientKeyExchange, SendClientCertificateVerify, SendClientFinished}
    ensures On(q, y.state, y.log)
  {
    hide On, ToCome, Events, SaidAll, FinishedFlight;
    ClientParts(q, a, x.transcript);
    SameFlight(p, q, a, x.transcript);
    OneEvent(Client, ClientChain(p, a), x.writing);
    OneEvent(Client, Plain(ClientKeyExchange, a.data), x.writing);
    OneEvent(Client, Plain(CertificateVerify, a.data), x.writing);
    if |y.log| == |x.log| && (x.state == y.state || ToCome(q, x.state) == ToCome(q, y.state)) {
      Unmoved(q, x, y);
    } else {
      match x.state
      case SendClientCertificate => SaidThese(q, x, y, [Hs(ClientChain(p, a), x.writing)]);
      case SendClientKeyExchange => SaidThese(q, x, y, [Hs(Plain(ClientKeyExchange, a.data), x.writing)]);
      case SendClientCertificateVerify => SaidThese(q, x, y, [Hs(Plain(CertificateVerify, a.data), x.writing)]);
      case SendClientFinished => SaidThese(q, x, y, FinishedFlight(p, a, x.transcript));
    }
  }

  /** What the client sends with its Finished does not depend on the server's choices. */
  lemma SameFlight(p: Params, q: Params, a: Answer, before: seq<Msg>)
    requires q.npn == p.npn && q.channelId == p.channelId
    ensures FinishedFlight(q, a, before) == FinishedFlight(p, a, before)
  {
    hide Messages;
  }

  /** What is still to come where the client speaks. */
  lemma ClientParts(p: Params, a: Answer, before: seq<Msg>)
    ensures ToCome(p, SendClientCertificate) ==
      if p.certRequest then [Event(Client, Certificate)] + ToCome(p, SendClientKeyExchange) else ToCome(p, SendClientKeyExchange)
    ensures ToCome(p, SendClientKeyExchange) == [Event(Client, ClientKeyExchange)] + ToCome(p, SendClientCertificateVerify)
    ensures ToCome(p, SendClientCertificateVerify) ==
      if p.certRequest && p.clientCert then [Event(Client, CertificateVerify)] + ToCome(p, SendClientFinished)
      else ToCome(p, SendClientFinished)
    ensures ToCome(p, SendClientFinished) == Events(Client, FinishedFlight(p, a, before)) + ToCome(p, FinishFlight)
  {
    hide FromClientCcs, FromTicket, Events, FinishedFlight;
    FinishedFlightEvents(p, a, before);
  }

  lemma PartChange(p: Params, q: Params, a: Answer, x: Moment, y: Moment)
    requires AtPart(p, q, a, x, y) && (x.state.FinishFlight? || x.state.ReadSessionTicket? || x.state.ProcessChangeCipherSpec?)
    ensures On(q, y.state, y.log)
  {
    hide On, ToCome;
    if x.state == ProcessChangeCipherSpec {
      KeysChange(q, x.log);
    } else {
      LastParts(q);
      if |y.log| == |x.log| {
        Unmoved(q, x, y);
      } else {
        HeardThis(q, x, y);
      }
    }
  }

  lemma KeysChange(q: Params, log: seq<Entry<State>>)
    requires On(q, ProcessChangeCipherSpec, log)
    ensures On(q, ReadServerFinished, log + [KeysChanged])
  {
    hide On, ToCome, Flow;
    LastParts(q);
    FlowGrows(Client, log, KeysChanged);
    Onward(q, ProcessChangeCipherSpec, ReadServerFinished, log, [Event(Server, ChangeCipherSpec)], log + [KeysChanged]);
  }

  lemma PartLast(p: Params, q: Params, a: Answer, x: Moment, y: Moment)
    requires AtPart(p, q, a, x, y) && (x.state.ReadServerFinished? || x.state.FinishHandshake? || x.state.Done?)
    ensures On(q, y.state, y.log)
  {
    hide On, ToCome;
    LastParts(q);
    if |y.log| == |x.log| {
      Unmoved(q, x, y);
    } else {
      HeardThis(q, x, y);
    }
  }

  /** What is still to come in the last states. */
  lemma LastParts(p: Params)
    ensures ToCome(p, FinishFlight) == ToCome(p, if p.resumed then FinishHandshake else ReadSessionTicket)
    ensures ToCome(p, ReadSessionTicket) ==
      if p.ticket then [Event(Server, NewSessionTicket)] + ToCome(p, ProcessChangeCipherSpec) else ToCome(p, ProcessChangeCipherSpec)
    ensures ToCome(p, ProcessChangeCipherSpec) == [Event(Server, ChangeCipherSpec)] + ToCome(p, ReadServerFinished)
    ensures ToCome(p, ReadServerFinished) == [Event(Server, Finished)] + ToCome(p, if p.resumed then SendClientFinished else FinishHandshake)
    ensures ToCome(p, FinishHandshake) == ToCome(p, Done)
  {
    hide FromTicket, FromServerFinished;
    TicketParts(p);
    FinishedFirst(p);
  }

  lemma FinishedFirst(p: Params)
    ensures FromServerFinished(p) == [Event(Server, Finished)] + if p.resumed then FromClientCcs(p) else []
  {
    assert ClientFlight(p) + [] == ClientFlight(p);
  }

  /** What a client's caller or the network may do next. */
  datatype Input = Step(answer: Answer) | Flushed(n: nat) | Record(items: seq<Item>)

  class ClientMachine {
    const p: Params
    var state: State
    var wait: Wait
    var inbox: seq<Msg>
    var outbox: seq<Item>
    var transcript: seq<Msg>
    var certRequest: bool
    var readKeys: bool
    var writeKeys: bool
    ghost var log: seq<Entry<State>>
    /** The terms of the handshake, as far as they are known. */
    ghost var met: Params

    ghost function View(): View
      reads this`state, this`wait, this`inbox, this`outbox, this`transcript, this`readKeys, this`writeKeys
    {
      var waits := state == ProcessChangeCipherSpec && wait == ReadChangeCipherSpec;
      HandshakeScript.View(if waits then FromServerCcs(p) else PlaceOf(p, state).rest, PlaceOf(p, state).rank,
        if wait == Again then Ok else wait, inbox, outbox, transcript,
        readKeys || (state == ProcessChangeCipherSpec && !waits), writeKeys)
    }

    /** The client is where the script says. */
    ghost predicate Valid()
      reads this`state, this`wait, this`inbox, this`outbox, this`transcript, this`certRequest, this`readKeys, this`writeKeys
    {
      && Compatible(p) && Placed(Client, View())
      && (wait == ReadChangeCipherSpec ==> state == ProcessChangeCipherSpec)
      && (state == ProcessChangeCipherSpec ==> wait == ReadChangeCipherSpec || wait == Ok)
      && (FullOnly(state) ==> !p.resumed)
      && var here := PlaceOf(p, state);
      && certRequest == here.asked && readKeys == here.opens && writeKeys == here.seals
    }

    /** What holds of a client that talks to anyone at all. */
    ghost predicate Safe()
      reads this`state, this`transcript, this`log
    {
      transcript == Hashed(log) && Assured(p, state, log)
    }

    /** A step may be taken in state `s`, and the world's answer to it is on record. */
    ghost predicate Ready(s: State, a: Answer)
      reads this`state, this`wait, this`log
    {
      wait == Ok && state == s && Last(log, s, a)
    }

    // ---- What a step may do ----

    twostate predicate Same()
      reads this
    {
      inbox == old(inbox) && outbox == old(outbox) && transcript == old(transcript) && log == old(log)
    }

    twostate predicate Waited(w: Wait)
      reads this
    {
      wait == w && state == old(state) && Same()
    }

    twostate predicate Went(s: State)
      reads this
    {
      wait == Ok && state == s && Same()
    }

    /** The first unread message is taken and hashed. */
    twostate predicate Took(s: State, w: Wait)
      reads this
    {
      && old(inbox) != [] && inbox == old(inbox)[1..] && transcript == old(transcript) + [old(inbox)[0]]
      && log == old(log) + [Heard(old(inbox)[0])] && outbox == old(outbox) && state == s && wait == w
    }

    /** Items join the flight, and the messages among them the transcript. */
    twostate predicate Sent(items: seq<Item>, s: State, w: Wait)
      reads this
    {
      && outbox == old(outbox) + items && transcript == old(transcript) + Messages(items) && log == old(log) + SaidAll(items)
      && inbox == old(inbox) && state == s && wait == w
    }

    /** What all steps have in common: one that does not wait lowers the rank; one whose lookup has
        succeeded does something; a step on the script stays on it unless something unexpected was
        read or answered; and a safe client stays safe. */
    twostate predicate Kept(a: Answer)
      reads this
    {
      && (wait == Ok ==> View().rank < old(View()).rank)
      && (a.outcome == Succeeded ==> View() != old(View()))
      && (old(OnScript(a)) ==> Valid() && Moves(p, Client, old(View()), View()))
      && (old(Safe()) ==> Safe())
    }

    twostate predicate Stepped(a: Answer)
      reads this
    {
      Kept(a) && OnlyDeeds(old(log), log)
    }

    /** What has been said and heard is the script so far, of a server as this one has shown itself. */
    ghost predicate Followed()
      reads this`state, this`certRequest, this`log, this`met
    {
      Follows(p, met, state, certRequest, log)
    }

    ghost function Now(): Moment
      reads this`state, this`inbox, this`transcript, this`certRequest, this`writeKeys, this`log
    {
      Moment(state, inbox, transcript, certRequest, writeKeys, log)
    }

    ghost predicate OnScript(a: Answer)
      reads this`state, this`wait, this`inbox, this`outbox, this`transcript, this`certRequest, this`readKeys, this`writeKeys
    {
      Valid() && Favourable(a) && Welcome(p, Client, View())
    }

    constructor (p: Params)
      ensures Safe() && this.p == p && state == StartConnect && wait == Ok && log == []
      ensures Followed() && (Compatible(p) ==> Valid())
      ensures View() == HandshakeScript.View(Script(p), 18, Ok, [], [], [], false, false)
    {
      this.p := p;
      state, wait, inbox, outbox, transcript := StartConnect, Ok, [], [], [];
      certRequest, readKeys, writeKeys, log, met := false, false, false, [], Unmet(p);
      new;
      hide Script, Follows, Assured;
      StartsFollowing(p);
      NothingAssured(p);
    }

    /** What has been said, heard and changed at the end, with any server: exactly the messages of the script,
        in its order, for terms that fit together and that the client's own are part of. */
    lemma DoneFollowed()
      requires Followed() && OwnTerms(p) && state == Done
      ensures Flow(Client, log) == Script(met) && Compatible(met) && Meets(p, met)
    {
      hide Script, Flow;
      assert Possible(state, met, met) && On(met, state, log);
      assert Flow(Client, log) + [] == Flow(Client, log);
    }

    /** Safety (sections 7.3 and 7.4.9 of RFC 5246): a client that is done changed its read keys and
        then verified a Finished of the server over exactly its own transcript up to there. */
    lemma DoneIsSafe()
      requires Safe() && state == Done
      ensures transcript == Hashed(log)
      ensures exists i, k :: 0 <= i < k < |log| && log[i].KeysChanged? && log[k] == Heard(Fin(Server, Hashed(log[..k])))
    {
      hide Granted, SaidAfter, Signed;
    }

    /** Wherever a client is, it has sent no ClientKeyExchange in a certificate cipher before the
        verification of the server's certificate had succeeded. */
    lemma VerifiedBeforeKeyExchange(k: nat)
      requires Safe() && p.certAuth && k < |log| && IsSaid(log[k], ClientKeyExchange)
      ensures exists j :: 0 <= j < k && log[j].Answered? && log[j].at == VerifyServerCertificate && log[j].answer.outcome == Succeeded
    {
      hide FinishedVerified, Signed;
      var j :| 0 <= j < |log[..k]| && log[..k][j].Answered? && log[..k][j].at == VerifyServerCertificate
        && log[..k][j].answer.outcome == Succeeded;
      assert log[j] == log[..k][j];
    }

    // ---- The flight and the transcript ----

    /** ssl3_add_message: into the flight and into the transcript. */
    method AddMessage(m: Msg)
      modifies this`outbox, this`transcript, this`log
      ensures outbox == old(outbox) + [Hs(m, writeKeys)] && transcript == old(transcript) + [m]
      ensures log == old(log) + [Said(Hs(m, writeKeys))]
      ensures old(Safe()) && (KindOf(m) == ClientKeyExchange && p.certAuth ==> PastVerification(state)) ==> Safe()
    {
      hide Assured;
      outbox := outbox + [Hs(m, writeKeys)];
      transcript := transcript + [m];
      Logged(Said(Hs(m, writeKeys)));
      log := log + [Said(Hs(m, writeKeys))];
    }

    lemma Logged(e: Entry<State>)
      ensures Hashed(log + [e]) == Hashed(log) + MessageOf(e)
      ensures Assured(p, state, log) && Due(p, state, log, e) ==> Assured(p, state, log + [e])
    {
      hide Assured, Due;
      HashedGrows(log, e);
      if Assured(p, state, log) && Due(p, state, log, e) {
        AssuredGrows(p, state, log, e);
      }
    }

    /** ssl3_add_change_cipher_spec and tls1_change_cipher_state. */
    method AddChangeCipherSpec()
      modifies this`outbox, this`writeKeys, this`log
      ensures outbox == old(outbox) + [Ccs] && writeKeys && log == old(log) + [Said(Ccs)]
      ensures old(Safe()) ==> Safe()
    {
      hide Assured;
      outbox := outbox + [Ccs];
      writeKeys := true;
      Logged(Said(Ccs));
      log := log + [Said(Ccs)];
      assert transcript + [] == transcript;
    }

    /** ssl_hash_message and next_message, and on to another state. */
    method Hear(next: State, to: Wait)
      requires inbox != [] && (Safe() ==> Assured(p, next, log + [Heard(inbox[0])]))
      modifies this`state, this`wait, this`inbox, this`transcript, this`log
      ensures Took(next, to) && (old(Safe()) ==> Safe())
    {
      hide Assured, Hashed;
      HashedGrows(log, Heard(inbox[0]));
      transcript := transcript + [inbox[0]];
      log := log + [Heard(inbox[0])];
      inbox := inbox[1..];
      state, wait := next, to;
    }

    lemma HearingIsSafe(next: State)
      requires inbox != [] && Due(p, state, log, Heard(inbox[0])) && NoMore(p, state, next)
      ensures Safe() ==> Assured(p, next, log + [Heard(inbox[0])])
    {
      hide Assured, Due, NoMore, Hashed;
      if Safe() {
        AssuredGrows(p, state, log, Heard(inbox[0]));
        AssuredGoesOn(p, state, next, log + [Heard(inbox[0])]);
      }
    }

    // ---- The five ways a step ends ----

    /** Nothing to read yet. */
    method Block(a: Answer)
      requires wait == Ok && state != ProcessChangeCipherSpec && inbox == [] && (Valid() ==> Owed(p, state))
      modifies this`wait
      ensures Waited(ReadMessage) && Stepped(a)
    {
      hide PlaceOf, Assured, Hashed, Moves;
      ghost var before := View();
      wait := ReadMessage;
      if old(Valid()) {
        MovesByBlocking(p, Client, before);
      }
    }

    /** A lookup is not finished. */
    method Retry(a: Answer)
      requires wait == Ok && state != ProcessChangeCipherSpec && a.outcome != Succeeded
      modifies this`wait
      ensures Waited(Again) && Stepped(a)
    {
      hide PlaceOf, Assured, Hashed, Moves;
      wait := Again;
      if old(Valid()) {
        MovesByRetrying(p, Client, View());
      }
    }

    method Fail(a: Answer)
      requires wait == Ok && !OnScript(a)
      modifies this`wait
      ensures Waited(Error) && Stepped(a)
    {
      hide PlaceOf, Assured, Hashed, Moves;
      wait := Error;
    }

    method GoTo(next: State, a: Answer)
      requires wait == Ok && state != ProcessChangeCipherSpec && next != ProcessChangeCipherSpec && Lowers(p, state, next)
      requires NoMore(p, state, next) || (Safe() ==> Assured(p, next, log))
      requires OnScript(a) ==> (FullOnly(next) ==> !p.resumed) && exists e :: Leads(p, state, next, false, e)
      modifies this`state
      ensures Went(next) && Stepped(a)
    {
      hide PlaceOf, Assured, Hashed, Moves, FullOnly, NoMore, Welcome, Compatible;
      ghost var before := View();
      if Safe() && NoMore(p, state, next) {
        AssuredGoesOn(p, state, next, log);
      }
      state := next;
      if old(OnScript(a)) {
        MovesSilently(p, Client, before, View());
      }
    }

    /** get_message has found a message: hash it, and on. */
    method TakeMessage(next: State, a: Answer)
      requires wait == Ok && state != ProcessChangeCipherSpec && next != ProcessChangeCipherSpec && inbox != [] && Lowers(p, state, next)
      requires (Due(p, state, log, Heard(inbox[0])) && NoMore(p, state, next)) || (Safe() ==> Assured(p, next, log + [Heard(inbox[0])]))
      requires OnScript(a) ==> (FullOnly(next) ==> !p.resumed) && Leads(p, state, next, true, Event(Server, KindOf(inbox[0])))
      modifies this`state, this`wait, this`inbox, this`transcript, this`log
      ensures Took(next, Ok) && Stepped(a)
    {
      hide PlaceOf, Assured, Hashed, Moves, FullOnly, NoMore, Welcome, Compatible, Due, Leads, Safe;
      ghost var before := View();
      if Due(p, state, log, Heard(inbox[0])) && NoMore(p, state, next) {
        HearingIsSafe(next);
      }
      Hear(next, Ok);
      if old(OnScript(a)) {
        Taking(old(state), before);
      }
    }

    lemma Taking(s: State, before: View)
      requires Compatible(p) && before.rest == PlaceOf(p, s).rest && before.rank == PlaceOf(p, s).rank
      requires Lowers(p, s, state) && (FullOnly(state) ==> !p.resumed) && wait == Ok && state != ProcessChangeCipherSpec
      requires before.inbox != [] && Welcome(p, Client, before) && Placed(Client, before) && before.wait == Ok
      requires Leads(p, s, state, true, Event(Server, KindOf(before.inbox[0])))
      requires inbox == before.inbox[1..] && transcript == before.transcript + [before.inbox[0]] && outbox == before.outbox
      requires certRequest == PlaceOf(p, s).asked
      requires readKeys == before.reading == PlaceOf(p, s).opens && writeKeys == before.writing == PlaceOf(p, s).seals
      ensures Valid() && Moves(p, Client, before, View())
    {
      hide PlaceOf, Moves, FullOnly, Compatible, Genuine;
      MovesByTaking(p, Client, before, View(), Event(Server, KindOf(before.inbox[0])));
    }

    /** A flight of one message, perhaps to be continued. */
    method SendMessage(m: Msg, next: State, to: Wait, a: Answer)
      requires wait == Ok && state != ProcessChangeCipherSpec && next != ProcessChangeCipherSpec && Lowers(p, state, next)
      requires (Safe() ==> NoMore(p, state, next)) && (to == Flush || (to == Ok && NextIsClients(p, next)))
      requires KindOf(m) == ClientKeyExchange && p.certAuth ==> PastVerification(state)
      requires OnScript(a) ==>
        && (FullOnly(next) ==> !p.resumed) && PlaceOf(p, next).rank > 0
        && Leads(p, state, next, true, Event(Client, KindOf(m))) && Genuine(p, Client, m, transcript)
      modifies this`state, this`wait, this`outbox, this`transcript, this`log
      ensures Sent([Hs(m, writeKeys)], next, to) && Stepped(a)
    {
      hide PlaceOf, Assured, Hashed, Moves, FullOnly, NoMore, Compatible, Genuine, Messages, SaidAll, PastVerification, Leads, NextIsClients, Safe;
      ghost var before := View();
      Emit(m, next, to);
      if old(OnScript(a)) {
        Sending(m, old(state), before);
      }
    }

    method Emit(m: Msg, next: State, to: Wait)
      requires (Safe() ==> NoMore(p, state, next)) && (KindOf(m) == ClientKeyExchange && p.certAuth ==> PastVerification(state))
      modifies this`state, this`wait, this`outbox, this`transcript, this`log
      ensures Sent([Hs(m, writeKeys)], next, to) && transcript == old(transcript) + [m] && (old(Safe()) ==> Safe())
    {
      hide Assured, Hashed, NoMore, Messages, SaidAll, PastVerification, KindOf;
      AddMessage(m);
      Leave(next, to);
      OneSaid<State>(Hs(m, writeKeys));
    }

    /** The flight is complete: on to the next state. */
    method Leave(next: State, to: Wait)
      modifies this`state, this`wait
      ensures state == next && wait == to && (old(Safe()) && NoMore(p, old(state), next) ==> Safe())
    {
      hide Assured, Hashed, NoMore;
      if Safe() && NoMore(p, state, next) {
        AssuredGoesOn(p, state, next, log);
      }
      state, wait := next, to;
    }

    lemma Sending(m: Msg, s: State, before: View)
      requires Compatible(p) && before.rest == PlaceOf(p, s).rest && before.rank == PlaceOf(p, s).rank
      requires Lowers(p, s, state) && PlaceOf(p, state).rank > 0 && (FullOnly(state) ==> !p.resumed)
      requires wait == Flush || (wait == Ok && NextIsClients(p, state))
      requires Leads(p, s, state, true, Event(Client, KindOf(m))) && Genuine(p, Client, m, before.transcript)
      requires state != ProcessChangeCipherSpec && outbox == before.outbox + [Hs(m, writeKeys)] && transcript == before.transcript + [m]
      requires inbox == before.inbox && certRequest == PlaceOf(p, s).asked
      requires readKeys == before.reading == PlaceOf(p, s).opens && writeKeys == before.writing == PlaceOf(p, s).seals
      ensures Valid() && Moves(p, Client, before, View())
    {
      hide PlaceOf, Moves, FullOnly, Compatible, Genuine;
      MovesBySendingOne(p, Client, before, View(), Hs(m, writeKeys));
    }
    // ---- The steps ----

    method StartConnectStep(a: Answer)
      requires Ready(StartConnect, a)
      modifies this`state, this`wait, this`outbox, this`transcript, this`log
      ensures Sent([Hs(Plain(ClientHello, a.data), writeKeys)], EnterEarlyData, Flush) && Stepped(a)
    {
      hide PlaceOf, Assured, Leads, Lowers, Hashed, Genuine, Messages, SaidAll, Stepped;
      StartPlaces(p);
      PlainIsGenuine(p, Client, ClientHello, a.data, transcript);
      SendMessage(Plain(ClientHello, a.data), EnterEarlyData, Flush, a);
    }

    /** No early data. */
    method EnterEarlyDataStep(a: Answer)
      requires Ready(EnterEarlyData, a)
      modifies this`state
      ensures Went(ReadServerHello) && Stepped(a)
    {
      hide PlaceOf, Assured, Leads, Lowers, Stepped;
      StartPlaces(p);
      GoTo(ReadServerHello, a);
    }

    /** The ServerHello is hashed, and decides between the full and the resumed path. */
    method ReadServerHelloStep(a: Answer)
      requires Ready(ReadServerHello, a)
      modifies this`state, this`wait, this`inbox, this`transcript, this`log
      ensures Stepped(a)
      ensures if old(inbox) == [] then Waited(ReadMessage)
        else if KindOf(old(inbox)[0]) != ServerHello then Waited(Error)
        else Took(if p.resumed then ReadSessionTicket else ReadServerCertificate, Ok)
    {
      hide PlaceOf, Assured, Leads, Lowers, Hashed, Genuine, Messages, Stepped;
      HelloPlaces(p);
      if inbox == [] {
        Block(a);
      } else if KindOf(inbox[0]) != ServerHello {
        Fail(a);
      } else {
        TakeMessage(if p.resumed then ReadSessionTicket else ReadServerCertificate, a);
      }
    }

    /** A certificate is read exactly in a certificate cipher, and it may not be empty. */
    method ReadServerCertificateStep(a: Answer)
      requires Ready(ReadServerCertificate, a)
      modifies this`state, this`wait, this`inbox, this`transcript, this`log
      ensures Stepped(a)
      ensures if !p.certAuth then Went(ReadCertificateStatus)
        else if old(inbox) == [] then Waited(ReadMessage)
        else if KindOf(old(inbox)[0]) != Certificate || old(inbox)[0].data == [] then Waited(Error)
        else Took(ReadCertificateStatus, Ok)
    {
      hide PlaceOf, Assured, Leads, Lowers, Hashed, Messages, Stepped;
      CertificatePlaces(p);
      if !p.certAuth {
        GoTo(ReadCertificateStatus, a);
      } else if inbox == [] {
        Block(a);
      } else if KindOf(inbox[0]) != Certificate || inbox[0].data == [] {
        Fail(a);
      } else {
        TakeMessage(ReadCertificateStatus, a);
      }
    }

    /** A server may change its mind about sending a CertificateStatus. */
    method ReadCertificateStatusStep(a: Answer)
      requires Ready(ReadCertificateStatus, a)
      modifies this`state, this`wait, this`inbox, this`transcript, this`log
      ensures Stepped(a)
      ensures if !p.ocsp then Went(VerifyServerCertificate)
        else if old(inbox) == [] then Waited(ReadMessage)
        else if KindOf(old(inbox)[0]) != CertificateStatus then Went(VerifyServerCertificate)
        else Took(VerifyServerCertificate, Ok)
    {
      hide PlaceOf, Assured, Leads, Lowers, Hashed, Genuine, Messages, Stepped;
      StatusPlaces(p);
      if !p.ocsp {
        GoTo(VerifyServerCertificate, a);
      } else if inbox == [] {
        Block(a);
      } else if KindOf(inbox[0]) != CertificateStatus {
        GoTo(VerifyServerCertificate, a);
      } else {
        TakeMessage(VerifyServerCertificate, a);
      }
    }

    /** In a certificate cipher nothing goes on until ssl_verify_peer_cert has said ok. */
    method VerifyServerCertificateStep(a: Answer)
      requires Ready(VerifyServerCertificate, a)
      modifies this`state, this`wait
      ensures Stepped(a)
      ensures if !p.certAuth || a.outcome == Succeeded then Went(ReadServerKeyExchange)
        else Waited(if a.outcome == Failed then Error else Again)
    {
      hide PlaceOf, Assured, Leads, Lowers, Hashed, Stepped;
      StatusPlaces(p);
      if p.certAuth && a.outcome == Failed {
        Fail(a);
      } else if p.certAuth && a.outcome == Pending {
        Retry(a);
      } else {
        if Safe() {
          VerificationCounts(p, log, a);
        }
        GoTo(ReadServerKeyExchange, a);
      }
    }

    /** A ServerKeyExchange is required with an ephemeral key exchange, optional with a plain PSK and
        refused otherwise; in a certificate cipher its signature must be valid. */
    method ReadServerKeyExchangeStep(a: Answer)
      requires Ready(ReadServerKeyExchange, a)
      modifies this`state, this`wait, this`inbox, this`transcript, this`log
      ensures Stepped(a)
      ensures if old(inbox) == [] then Waited(ReadMessage)
        else if KindOf(old(inbox)[0]) != ServerKeyExchange then
          if p.keyRequired then Waited(Error) else Went(ReadCertificateRequest)
        else if p.certAuth && !(p.keyRequired && a.valid) then Waited(Error)
        else Took(ReadCertificateRequest, Ok)
    {
      hide PlaceOf, Assured, Leads, Lowers, Hashed, Genuine, Messages, Stepped;
      KeyExchangePlaces(p);
      if inbox == [] {
        Block(a);
      } else if KindOf(inbox[0]) != ServerKeyExchange {
        if p.keyRequired {
          Fail(a);
        } else {
          GoTo(ReadCertificateRequest, a);
        }
      } else if p.certAuth && !(p.keyRequired && a.valid) {
        Fail(a);
      } else {
        TakeMessage(ReadCertificateRequest, a);
      }
    }

    /** A CertificateRequest is noted; a ServerHelloDone is left for the next state. */
    method ReadCertificateRequestStep(a: Answer)
      requires Ready(ReadCertificateRequest, a)
      modifies this`state, this`wait, this`inbox, this`transcript, this`certRequest, this`log
      ensures Stepped(a)
      ensures if !p.certAuth then Went(ReadServerHelloDone)
        else if old(inbox) == [] then Waited(ReadMessage)
        else if KindOf(old(inbox)[0]) == ServerHelloDone then Went(ReadServerHelloDone)
        else if KindOf(old(inbox)[0]) != CertificateRequest then Waited(Error)
        else Took(ReadServerHelloDone, Ok)
      ensures certRequest == (old(certRequest) || (p.certAuth && old(inbox) != [] && KindOf(old(inbox)[0]) == CertificateRequest))
    {
      hide PlaceOf, Assured, Leads, Lowers, Hashed, Genuine, Messages, Stepped;
      RequestPlaces(p);
      if !p.certAuth {
        SkipRequest(a);
      } else if inbox == [] {
        Block(a);
      } else if KindOf(inbox[0]) == ServerHelloDone {
        SkipRequest(a);
      } else if KindOf(inbox[0]) != CertificateRequest {
        Fail(a);
      } else {
        NoteCertificateRequest(a);
      }
    }

    method SkipRequest(a: Answer)
      requires Ready(ReadCertificateRequest, a) && (p.certAuth ==> inbox != [] && KindOf(inbox[0]) == ServerHelloDone)
      modifies this`state
      ensures Went(ReadServerHelloDone) && Stepped(a)
    {
      hide PlaceOf, Assured, Lowers, Hashed, Genuine, Messages, Stepped;
      RequestPlaces(p);
      if OnScript(a) {
        assert Leads(p, ReadCertificateRequest, ReadServerHelloDone, false, Event(Server, CertificateRequest));
      }
      GoTo(ReadServerHelloDone, a);
    }

    method NoteCertificateRequest(a: Answer)
      requires Ready(ReadCertificateRequest, a) && p.certAuth && inbox != [] && KindOf(inbox[0]) == CertificateRequest
      modifies this`state, this`wait, this`inbox, this`transcript, this`certRequest, this`log
      ensures Took(ReadServerHelloDone, Ok) && Stepped(a) && certRequest
    {
      hide PlaceOf, Assured, Hashed, Moves, Genuine;
      RequestPlaces(p);
      DonePlaces(p);
      ghost var before := View();
      HearingIsSafe(ReadServerHelloDone);
      Hear(ReadServerHelloDone, Ok);
      certRequest := true;
      if old(OnScript(a)) {
        MovesByTaking(p, Client, before, View(), Event(Server, CertificateRequest));
      }
    }

    method ReadServerHelloDoneStep(a: Answer)
      requires Ready(ReadServerHelloDone, a)
      modifies this`state, this`wait, this`inbox, this`transcript, this`log
      ensures Stepped(a)
      ensures if old(inbox) == [] then Waited(ReadMessage)
        else if KindOf(old(inbox)[0]) != ServerHelloDone then Waited(Error)
        else Took(SendClientCertificate, Ok)
    {
      hide PlaceOf, Assured, Leads, Lowers, Hashed, Genuine, Messages, Stepped;
      DonePlaces(p);
      ClientCertificatePlaces(p);
      if inbox == [] {
        Block(a);
      } else if KindOf(inbox[0]) != ServerHelloDone {
        Fail(a);
      } else {
        TakeMessage(SendClientCertificate, a);
      }
    }

    /** Sent exactly when asked for, once the certificate is chosen; empty without one. */
    method SendClientCertificateStep(a: Answer)
      requires Ready(SendClientCertificate, a)
      modifies this`state, this`wait, this`outbox, this`transcript, this`log
      ensures Stepped(a)
      ensures if !certRequest then Went(SendClientKeyExchange)
        else if a.outcome != Succeeded then Waited(if a.outcome == Failed then Error else Again)
        else Sent([Hs(ClientChain(p, a), writeKeys)], SendClientKeyExchange, Ok)
    {
      hide PlaceOf, Assured, Leads, Lowers, Hashed, Genuine, Messages, SaidAll, Stepped;
      ClientCertificatePlaces(p);
      if !certRequest {
        GoTo(SendClientKeyExchange, a);
      } else if a.outcome == Failed {
        Fail(a);
      } else if a.outcome == Pending {
        Retry(a);
      } else {
        CertificateIsGenuine(p, Client, ClientChain(p, a), transcript);
        SendMessage(ClientChain(p, a), SendClientKeyExchange, Ok, a);
      }
    }

    method SendClientKeyExchangeStep(a: Answer)
      requires Ready(SendClientKeyExchange, a)
      modifies this`state, this`wait, this`outbox, this`transcript, this`log
      ensures Sent([Hs(Plain(ClientKeyExchange, a.data), writeKeys)], SendClientCertificateVerify, Ok) && Stepped(a)
    {
      hide PlaceOf, Assured, Leads, Lowers, Hashed, Genuine, Messages, SaidAll, Stepped;
      ClientCertificatePlaces(p);
      PlainIsGenuine(p, Client, ClientKeyExchange, a.data, transcript);
      SendMessage(Plain(ClientKeyExchange, a.data), SendClientCertificateVerify, Ok, a);
    }

    /** Sent exactly by a client that was asked and has a certificate, when the signature is there. */
    method SendClientCertificateVerifyStep(a: Answer)
      requires Ready(SendClientCertificateVerify, a)
      modifies this`state, this`wait, this`outbox, this`transcript, this`log
      ensures Stepped(a)
      ensures if !certRequest || !p.clientCert then Went(SendClientFinished)
        else if a.outcome != Succeeded then Waited(if a.outcome == Failed then Error else Again)
        else Sent([Hs(Plain(CertificateVerify, a.data), writeKeys)], SendClientFinished, Ok)
    {
      hide PlaceOf, Leads, Lowers, Hashed, Genuine, Messages, SaidAll, Stepped;
      hide Granted, SaidAfter, Signed, FinishedVerified;
      ProofPlaces(p);
      if !certRequest || !p.clientCert {
        GoTo(SendClientFinished, a);
      } else if a.outcome == Failed {
        Fail(a);
      } else if a.outcome == Pending {
        Retry(a);
      } else {
        SendProof(a);
      }
    }

    method SendProof(a: Answer)
      requires Ready(SendClientCertificateVerify, a) && certRequest && p.clientCert
      modifies this`state, this`wait, this`outbox, this`transcript, this`log
      ensures Sent([Hs(Plain(CertificateVerify, a.data), writeKeys)], SendClientFinished, Ok) && Stepped(a)
    {
      hide PlaceOf, Leads, Lowers, Hashed, Genuine, Messages, SaidAll, Stepped, Granted, SaidAfter, Signed, FinishedVerified;
      ProofPlaces(p);
      PlainIsGenuine(p, Client, CertificateVerify, a.data, transcript);
      SendMessage(Plain(CertificateVerify, a.data), SendClientFinished, Ok, a);
    }

    /** The Channel ID is resolved first, before anything that cannot be repeated; then the whole
        flight goes out. */
    method SendClientFinishedStep(a: Answer)
      requires Ready(SendClientFinished, a)
      modifies this`state, this`wait, this`outbox, this`transcript, this`writeKeys, this`log
      ensures Stepped(a)
      ensures if p.channelId && a.outcome != Succeeded then Waited(if a.outcome == Failed then Error else Again) && writeKeys == old(writeKeys)
        else Sent(FinishedFlight(p, a, old(transcript)), FinishFlight, Flush) && writeKeys
    {
      hide PlaceOf, Assured, Hashed, Messages, SaidAll, Stepped, FinishedFlight, Moves, Placed, Welcome;
      if p.channelId && a.outcome == Failed {
        Fail(a);
      } else if p.channelId && a.outcome == Pending {
        Retry(a);
      } else {
        SendFlight(a);
      }
    }

    method SendFlight(a: Answer)
      requires Ready(SendClientFinished, a)
      modifies this`state, this`wait, this`outbox, this`transcript, this`writeKeys, this`log
      ensures Sent(FinishedFlight(p, a, old(transcript)), FinishFlight, Flush) && writeKeys && Stepped(a)
    {
      hide PlaceOf, Moves, Sends, Assured, Hashed, Messages, SaidAll, FinishedFlight, Welcome, Safe;
      ghost var before := View();
      FlightPart(p);
      EmitFlight(a);
      if old(OnScript(a)) {
        SendingFlight(a, before);
      }
    }

    lemma SendingFlight(a: Answer, before: View)
      requires Compatible(p) && before.rank == PlaceOf(p, SendClientFinished).rank && before.rest == FromClientCcs(p) && !before.writing
      requires state == FinishFlight && wait == Flush && outbox == before.outbox + FinishedFlight(p, a, before.transcript)
      requires transcript == before.transcript + Messages(FinishedFlight(p, a, before.transcript)) && inbox == before.inbox
      requires certRequest == PlaceOf(p, SendClientFinished).asked && writeKeys
      requires readKeys == before.reading == PlaceOf(p, SendClientFinished).opens
      ensures Valid() && Moves(p, Client, before, View())
    {
      hide PlaceOf, Moves, Sends, Messages, FinishedFlight, FromClientCcs, FromClientFinished, Compatible;
      FlightPart(p);
      FinishedFlightSends(p, a, before, View().(wait := before.wait, rank := before.rank));
      SameSends(p, Client, before, View().(wait := before.wait, rank := before.rank), View());
      MovesBySending(p, Client, before, View());
    }

    method EmitFlight(a: Answer)
      requires state == SendClientFinished
      modifies this`state, this`wait, this`outbox, this`transcript, this`writeKeys, this`log
      ensures Sent(FinishedFlight(p, a, old(transcript)), FinishFlight, Flush) && writeKeys && (old(Safe()) ==> Safe())
    {
      hide Assured, Hashed, Messages, SaidAll, FinishedFlight;
      AddFlight(a);
      Leave(FinishFlight, Flush);
    }

    twostate predicate Added(items: seq<Item>)
      reads this
    {
      outbox == old(outbox) + items && transcript == old(transcript) + Messages(items) && log == old(log) + SaidAll(items)
    }

    method AddFlight(a: Answer)
      modifies this`outbox, this`transcript, this`writeKeys, this`log
      ensures Added(FinishedFlight(p, a, old(transcript))) && writeKeys && (old(Safe()) ==> Safe())
    {
      hide Messages, SaidAll, ClientExtras, Safe;
      AddExtras(a);
      Extended(ClientExtras(p, a), Hs(Fin(Client, transcript), true), old(outbox), old(transcript), old(log));
      AddMessage(Fin(Client, transcript));
    }

    method AddExtras(a: Answer)
      modifies this`outbox, this`transcript, this`writeKeys, this`log
      ensures Added(ClientExtras(p, a)) && writeKeys && (old(Safe()) ==> Safe())
    {
      hide Messages, SaidAll, Safe;
      ghost var items: seq<Item> := [];
      NothingSaid(log);
      NothingToAdd(View());
      Extended(items, Ccs, outbox, transcript, log);
      AddChangeCipherSpec();
      items := items + [Ccs];
      if p.npn {
        Extended(items, Hs(Plain(NextProto, a.data), true), old(outbox), old(transcript), old(log));
        AddMessage(Plain(NextProto, a.data));
        items := items + [Hs(Plain(NextProto, a.data), true)];
      }
      if p.channelId {
        Extended(items, Hs(Plain(ChannelId, a.data), true), old(outbox), old(transcript), old(log));
        AddMessage(Plain(ChannelId, a.data));
        items := items + [Hs(Plain(ChannelId, a.data), true)];
      }
      assert items == ClientExtras(p, a);
    }

    /** False Start returns to the caller early, and changes nothing else. */
    method FinishFlightStep(a: Answer)
      requires Ready(FinishFlight, a)
      modifies this`state, this`wait
      ensures Stepped(a)
      ensures if p.resumed then Went(FinishHandshake)
        else state == ReadSessionTicket && wait == (if a.falseStart then Again else Ok) && Same()
    {
      hide PlaceOf, Assured, Leads, Lowers, Hashed, Messages, SaidAll, View, Valid, Safe, Moves;
      FinishPlaces(p);
      if p.resumed {
        GoTo(FinishHandshake, a);
      } else {
        GoTo(ReadSessionTicket, a);
        if a.falseStart {
          ReturnEarly();
        }
      }
    }

    method ReturnEarly()
      requires state == ReadSessionTicket && wait == Ok
      modifies this`wait
      ensures wait == Again && View() == old(View()) && Valid() == old(Valid()) && Safe() == old(Safe())
    {
      hide PlaceOf, Assured, Hashed;
      wait := Again;
    }

    /** A ticket is read exactly when one is expected; then comes the ChangeCipherSpec. */
    method ReadSessionTicketStep(a: Answer)
      requires Ready(ReadSessionTicket, a)
      modifies this`state, this`wait, this`inbox, this`transcript, this`log
      ensures Stepped(a)
      ensures if !p.ticket then state == ProcessChangeCipherSpec && wait == ReadChangeCipherSpec && Same()
        else if old(inbox) == [] then Waited(ReadMessage)
        else if KindOf(old(inbox)[0]) != NewSessionTicket then Waited(Error)
        else Took(ProcessChangeCipherSpec, ReadChangeCipherSpec)
    {
      hide PlaceOf, Assured, Hashed, Messages, Moves, Genuine, FromServerCcs, Stepped;
      TicketPart(p);
      if !p.ticket {
        AwaitChange(a);
      } else if inbox == [] {
        Block(a);
      } else if KindOf(inbox[0]) != NewSessionTicket {
        Fail(a);
      } else {
        TakeSessionTicket(a);
      }
    }

    method AwaitChange(a: Answer)
      requires Ready(ReadSessionTicket, a) && !p.ticket
      modifies this`state, this`wait
      ensures state == ProcessChangeCipherSpec && wait == ReadChangeCipherSpec && Same() && Stepped(a)
    {
      hide PlaceOf, Assured, Hashed, Moves, FromServerCcs, Safe, Compatible;
      ghost var before := View();
      TicketPart(p);
      Leave(ProcessChangeCipherSpec, ReadChangeCipherSpec);
      if old(OnScript(a)) {
        MovesSilently(p, Client, before, View());
      }
    }

    method TakeSessionTicket(a: Answer)
      requires Ready(ReadSessionTicket, a) && p.ticket && inbox != [] && KindOf(inbox[0]) == NewSessionTicket
      modifies this`state, this`wait, this`inbox, this`transcript, this`log
      ensures Took(ProcessChangeCipherSpec, ReadChangeCipherSpec) && Stepped(a)
    {
      hide PlaceOf, Assured, Hashed, Moves, FromServerCcs, Safe, Welcome;
      ghost var before := View();
      HearingIsSafe(ProcessChangeCipherSpec);
      Hear(ProcessChangeCipherSpec, ReadChangeCipherSpec);
      TicketPart(p);
      if old(OnScript(a)) {
        TakingTicket(before);
      }
    }

    lemma TakingTicket(before: View)
      requires Compatible(p) && before.rest == PlaceOf(p, ReadSessionTicket).rest && before.rank == PlaceOf(p, ReadSessionTicket).rank
      requires state == ProcessChangeCipherSpec && wait == ReadChangeCipherSpec && p.ticket
      requires before.inbox != [] && KindOf(before.inbox[0]) == NewSessionTicket
      requires Welcome(p, Client, before) && Placed(Client, before) && before.wait == Ok
      requires inbox == before.inbox[1..] && transcript == before.transcript + [before.inbox[0]] && outbox == before.outbox
      requires certRequest == PlaceOf(p, ReadSessionTicket).asked
      requires readKeys == before.reading == PlaceOf(p, ReadSessionTicket).opens
      requires writeKeys == before.writing == PlaceOf(p, ReadSessionTicket).seals
      ensures Valid() && Moves(p, Client, before, View())
    {
      hide PlaceOf, Moves, Compatible, Genuine, FromServerCcs;
      TicketPart(p);
      MovesByTaking(p, Client, before, View(), Event(Server, NewSessionTicket));
    }

    /** tls1_change_cipher_state: from here on the server's records open under the new keys. */
    method ProcessChangeCipherSpecStep(a: Answer)
      requires Ready(ProcessChangeCipherSpec, a)
      modifies this`state, this`readKeys, this`log
      ensures Stepped(a)
      ensures state == ReadServerFinished && readKeys && wait == Ok && inbox == old(inbox) && outbox == old(outbox)
      ensures transcript == old(transcript) && log == old(log) + [KeysChanged]
    {
      hide PlaceOf, Assured, Hashed, Moves, Safe, Compatible;
      ghost var before := View();
      ChangePlaces(p);
      ChangeReadKeys();
      if old(OnScript(a)) {
        MovesSilently(p, Client, before, View());
      }
    }

    method ChangeReadKeys()
      requires state == ProcessChangeCipherSpec
      modifies this`state, this`readKeys, this`log
      ensures state == ReadServerFinished && readKeys && log == old(log) + [KeysChanged] && (old(Safe()) ==> Safe())
    {
      hide Assured, Hashed;
      HashedGrows(log, KeysChanged);
      if Safe() {
        ChangeCounts(p, log);
      }
      readKeys := true;
      log := log + [KeysChanged];
      state := ReadServerFinished;
      assert transcript + [] == transcript;
    }

    /** ssl_get_finished: the MAC must cover exactly the client's own transcript. */
    method ReadServerFinishedStep(a: Answer)
      requires Ready(ReadServerFinished, a)
      modifies this`state, this`wait, this`inbox, this`transcript, this`log
      ensures Stepped(a)
      ensures if old(inbox) == [] then Waited(ReadMessage)
        else if old(inbox)[0] != Fin(Server, old(transcript)) then Waited(Error)
        else Took(if p.resumed then SendClientFinished else FinishHandshake, Ok)
    {
      hide PlaceOf, Assured, Leads, Lowers, Hashed, Messages, Stepped;
      FinishedPart(p);
      if inbox == [] {
        Block(a);
      } else if inbox[0] != Fin(Server, transcript) {
        Fail(a);
      } else {
        TakeFinished(a);
      }
    }

    lemma FinishingIsSafe()
      requires state == ReadServerFinished && inbox != [] && inbox[0] == Fin(Server, transcript)
      ensures Safe() ==> Assured(p, if p.resumed then SendClientFinished else FinishHandshake, log + [Heard(inbox[0])])
    {
      hide Assured, Hashed;
      if Safe() {
        FinishedCounts(p, log);
      }
    }

    method TakeFinished(a: Answer)
      requires Ready(ReadServerFinished, a) && inbox != [] && inbox[0] == Fin(Server, transcript)
      modifies this`state, this`wait, this`inbox, this`transcript, this`log
      ensures Took(if p.resumed then SendClientFinished else FinishHandshake, Ok) && Stepped(a)
    {
      hide PlaceOf, Assured, Hashed, Moves, Compatible, Safe, Welcome, Leads, Lowers, Genuine;
      FinishedPart(p);
      FinishingIsSafe();
      if p.resumed {
        TakeMessage(SendClientFinished, a);
      } else {
        TakeMessage(FinishHandshake, a);
      }
    }

    method FinishHandshakeStep(a: Answer)
      requires Ready(FinishHandshake, a)
      modifies this`state
      ensures Went(Done) && Stepped(a)
    {
      hide PlaceOf, Assured, Leads, Lowers, Stepped;
      EndPlaces(p);
      GoTo(Done, a);
    }

    // ---- What ssl_run_handshake resolves between the steps ----

    /** flush_flight, when the transport takes the first `n` items. */
    method Push(n: nat) returns (sent: seq<Item>)
      requires wait == Flush && n <= |outbox|
      modifies this`outbox, this`wait
      ensures sent == old(outbox)[..n]
      ensures View() == old(View()).(outbox := old(outbox)[n..], wait := if n == |old(outbox)| then Ok else Flush)
      ensures (old(Valid()) ==> Valid()) && (old(Safe()) ==> Safe())
    {
      hide PlaceOf, Assured, Hashed;
      sent := outbox[..n];
      wait := if n == |outbox| then Ok else Flush;
      outbox := outbox[n..];
    }

    /** ssl_open_handshake: the messages of one record, if they open under the current keys. */
    method Pull(items: seq<Item>)
      requires wait == ReadMessage && items != []
      modifies this`inbox, this`wait
      ensures old(Valid()) ==>
        if forall i | 0 <= i < |items| :: items[i].Hs? && items[i].sealed == old(View()).reading then
          View() == old(View()).(inbox := old(inbox) + Messages(items), wait := Ok) && Valid()
        else wait == Error
      ensures old(Safe()) ==> Safe()
    {
      hide PlaceOf, Messages, Assured, Hashed;
      if forall i | 0 <= i < |items| :: items[i].Hs? && items[i].sealed == readKeys {
        inbox := inbox + Messages(items);
        wait := Ok;
      } else {
        wait := Error;
      }
    }

    /** ssl_open_change_cipher_spec, with the check of set_read_state that no message is left unread. */
    method PullChange(item: Item)
      requires wait == ReadChangeCipherSpec
      modifies this`wait
      ensures old(Valid()) ==>
        if item.Ccs? && inbox == [] then
          View() == old(View()).(rest := old(View()).rest[1..], reading := true, wait := Ok) && Valid()
        else wait == Error
      ensures wait == (if item.Ccs? && inbox == [] then Ok else Error) && (old(Safe()) ==> Safe())
    {
      hide PlaceOf, Assured, Hashed;
      TicketPart(p);
      if item.Ccs? && inbox == [] {
        wait := Ok;
      } else {
        wait := Error;
      }
    }

    /** Back to the caller, and on: nothing changes. */
    method Resume()
      requires wait == Again
      modifies this`wait
      ensures wait == Ok && View() == old(View()) && (old(Valid()) ==> Valid()) && (old(Safe()) ==> Safe())
    {
      hide PlaceOf, Assured, Hashed;
      wait := Ok;
    }

    // ---- The driver ----

    ghost method NoteAnswer(a: Answer)
      modifies this`log
      ensures log == old(log) + [Answered(state, a)] && (old(Safe()) ==> Safe()) && (old(Followed()) ==> Followed())
    {
      hide Assured, Hashed, Script, ToCome;
      Logged(Answered(state, a));
      FlowGrows(Client, log, Answered(state, a));
      assert Flow(Client, log) + [] == Flow(Client, log);
      log := log + [Answered(state, a)];
      assert transcript + [] == transcript;
    }

    /** One step; the answer to it goes on record first. */
    method Advance(a: Answer)
      requires wait == Ok && state != Done
      modifies this
      ensures Kept(a) && OnlyDeeds(old(log) + [Answered(old(state), a)], log)
      ensures old(Safe()) && old(Followed()) ==> Followed()
    {
      hide Valid, View, OnScript, Moves, Did, Assured, Hashed, Follows, Learn;
      NoteAnswer(a);
      ghost var before := Now();
      NotResumed();
      TakeStep(a);
      if old(Safe()) && old(Followed()) {
        StepFollows(p, met, a, before, Now());
        met := Learn(met, before, Now());
      }
    }

    lemma NotResumed()
      ensures Safe() && FullOnly(state) ==> !p.resumed
    {
      hide Granted, SaidAfter, Signed, FinishedVerified, Hashed;
    }

    method TakeStep(a: Answer)
      requires Ready(state, a) && state != Done
      modifies this
      ensures Stepped(a) && Did(p, a, old(Now()), Now()) && met == old(met)
    {
      hide Valid, View, Safe, OnScript, Moves, Stepped, Did;
      if FullOnly(state) || state in {StartConnect, EnterEarlyData, ReadServerHello} {
        TakeFirst(a);
      } else {
        TakeLast(a);
      }
    }

    /** Up to the client's Finished, of a full handshake. */
    method TakeFirst(a: Answer)
      requires Ready(state, a) && (FullOnly(state) || state in {StartConnect, EnterEarlyData, ReadServerHello})
      modifies this
      ensures Stepped(a) && Did(p, a, old(Now()), Now()) && met == old(met)
    {
      hide Valid, View, Safe, OnScript, Moves, Stepped, FinishedFlight, ClientChain, SaidAll, Messages;
      match state
      case StartConnect => StartConnectStep(a);
      case EnterEarlyData => EnterEarlyDataStep(a);
      case ReadServerHello => ReadServerHelloStep(a);
      case ReadServerCertificate => ReadServerCertificateStep(a);
      case ReadCertificateStatus => ReadCertificateStatusStep(a);
      case VerifyServerCertificate => VerifyServerCertificateStep(a);
      case ReadServerKeyExchange => ReadServerKeyExchangeStep(a);
      case ReadCertificateRequest => ReadCertificateRequestStep(a);
      case ReadServerHelloDone => ReadServerHelloDoneStep(a);
      case SendClientCertificate => SendClientCertificateStep(a);
      case SendClientKeyExchange => SendClientKeyExchangeStep(a);
      case SendClientCertificateVerify => SendClientCertificateVerifyStep(a);
    }

    method SendFinished(a: Answer)
      requires Ready(state, a) && state == SendClientFinished
      modifies this
      ensures Stepped(a) && Did(p, a, old(Now()), Now()) && met == old(met)
    {
      hide Valid, View, Safe, OnScript, Moves, Stepped, FinishedFlight, ClientChain, SaidAll, Messages;
      SendClientFinishedStep(a);
    }

    /** From there on. */
    method TakeLast(a: Answer)
      requires Ready(state, a) && state != Done && !FullOnly(state) && state !in {StartConnect, EnterEarlyData, ReadServerHello}
      modifies this
      ensures Stepped(a) && Did(p, a, old(Now()), Now()) && met == old(met)
    {
      hide Valid, View, Safe, OnScript, Moves, Stepped, FinishedFlight, ClientChain, SaidAll, Messages;
      match state
      case SendClientFinished => SendFinished(a);
      case FinishFlight => FinishFlightStep(a);
      case ReadSessionTicket => ReadSessionTicketStep(a);
      case ProcessChangeCipherSpec => ProcessChangeCipherSpecStep(a);
      case ReadServerFinished => ReadServerFinishedStep(a);
      case FinishHandshake => FinishHandshakeStep(a);
    }

    /** ssl_client_handshake: steps until one waits or the handshake is done. */
    method Handshake(answers: nat -> Answer) returns (ghost trace: seq<View>)
      requires wait == Ok
      modifies this
      ensures IsTrace(old(View()), trace, View()) && (wait != Ok || state == Done)
      ensures (old(Safe()) ==> Safe()) && (old(Safe()) && old(Followed()) ==> Followed())
      ensures old(Valid()) && AllWelcome(p, Client, trace) && (forall i :: Favourable(answers(i))) ==> Valid() && AllMove(p, Client, trace)
    {
      hide Stepped, PlaceOf, Moves, Welcome, Placed, Safe, OnlyDeeds, Followed;
      trace := [View()];
      var i := 0;
      ghost var onScript := Valid() && forall i :: Favourable(answers(i));
      while wait == Ok && state != Done
        invariant IsTrace(old(View()), trace, View()) && (old(Safe()) ==> Safe()) && (old(Safe()) && old(Followed()) ==> Followed())
        invariant onScript && AllWelcome(p, Client, trace) ==> Valid() && AllMove(p, Client, trace)
        decreases wait == Ok, View().rank
      {
        Advance(answers(i));
        ghost var longer := trace + [View()];
        TraceGrows(p, Client, trace, View());
        trace := longer;
        i := i + 1;
      }
    }

    /** Whatever the caller answers, and whatever the network delivers. */
    method Obey(input: Input)
      requires Safe()
      modifies this
      ensures Safe() && (old(Followed()) ==> Followed())
      ensures if old(wait) in {Ok, Again} && old(state) != Done && input.Step?
        then OnlyDeeds(old(log) + [Answered(old(state), input.answer)], log) else log == old(log)
    {
      hide PlaceOf, Moves, Placed, Valid, View, Safe, OnlyDeeds, Messages, Follows;
      match input
      case Step(a) =>
        if wait == Again {
          Resume();
        }
        if wait == Ok && state != Done {
          Advance(a);
        }
      case Flushed(n) =>
        if wait == Flush {
          var _ := Push(if n <= |outbox| then n else |outbox|);
        }
      case Record(items) =>
        if wait == ReadMessage && items != [] {
          Pull(items);
        } else if wait == ReadChangeCipherSpec && items != [] {
          PullChange(items[0]);
        }
    }

    /** Any run against any peer, honest or not: if it ends in state_done, the server's Finished was
        verified after the read keys changed, over all that was sent and received up to there; and the messages
        were those of the script. */
    method Run(inputs: seq<Input>)
      requires Safe()
      modifies this
      ensures Safe() && (state == Done ==> FinishedVerified(log, Server))
      ensures old(Followed()) && OwnTerms(p) && state == Done ==> Flow(Client, log) == Script(met) && Compatible(met) && Meets(p, met)
    {
      hide Safe, OnlyDeeds, Followed, Script, Flow;
      for i := 0 to |inputs|
        invariant Safe() && (old(Followed()) ==> Followed())
      {
        Obey(inputs[i]);
      }
      if state == Done {
        DoneIsSafe();
        assert FinishedVerified(log, Server);
        if old(Followed()) && OwnTerms(p) {
          DoneFollowed();
        }
      }
    }
  }
}
