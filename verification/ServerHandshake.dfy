/** The server's state machine (handshake_server.cc), in the same terms as the client's: each step says
    what it sends, takes and waits for, is a move of the handshake script when nothing unexpected was
    read or answered, and keeps the server safe whatever was. */
module ServerHandshake {
  import opened HandshakeScript
  import opened HandshakeLog

  datatype State =
    | StartAccept | ReadClientHello | SelectCertificate | SelectParameters | SendServerHello | SendServerCertificate
    | SendServerKeyExchange | SendServerHelloDone | ReadClientCertificate | VerifyClientCertificate | ReadClientKeyExchange
    | ReadClientCertificateVerify | AwaitChangeCipherSpec | ProcessChangeCipherSpec | ReadNextProto | ReadChannelId
    | ReadClientFinished | SendServerFinished | FinishHandshake | Done

  // ---- Where the script puts each state ----

  /** What a state stands for: the rest of the script, a rank that every step lowers, whether the
      client has shown a certificate, and the keys in use. */
  datatype Place = Place(rest: seq<Event>, rank: nat, shown: bool, opens: bool, seals: bool)

  /** A resumed handshake sends its Finished before it reads the client's. */
  function PlaceOf(p: Params, s: State): Place {
    var shown := !p.resumed && p.certRequest && p.clientCert;
    match s
    case StartAccept => Place(Script(p), 19, false, false, false)
    case ReadClientHello => Place(Script(p), 18, false, false, false)
    case SelectCertificate => Place(Script(p), 17, false, false, false)
    case SelectParameters => Place(Script(p), 16, false, false, false)
    case SendServerHello => Place(FromServerHello(p), 15, false, false, false)
    case SendServerCertificate => Place(FromServerCertificate(p), 14, false, false, false)
    case SendServerKeyExchange => Place(FromServerKeyExchange(p), 13, false, false, false)
    case SendServerHelloDone => Place(FromCertificateRequest(p), 12, false, false, false)
    case ReadClientCertificate => Place(FromClientCertificate(p), 11, false, false, false)
    case VerifyClientCertificate => Place(FromClientKeyExchange(p), 10, shown, false, false)
    case ReadClientKeyExchange => Place(FromClientKeyExchange(p), 9, shown, false, false)
    case ReadClientCertificateVerify => Place(FromCertificateVerify(p), 8, shown, false, false)
    case AwaitChangeCipherSpec => Place(FromClientCcs(p), 7, shown, false, p.resumed)
    case ProcessChangeCipherSpec => Place(FromNextProto(p), 6, shown, false, p.resumed)
    case ReadNextProto => Place(FromNextProto(p), 5, shown, true, p.resumed)
    case ReadChannelId => Place(FromChannelId(p), 4, shown, true, p.resumed)
    case ReadClientFinished => Place(FromClientFinished(p), 3, shown, true, p.resumed)
    case SendServerFinished =>
      if p.resumed then Place(FromTicket(p), 14, shown, false, false) else Place(FromTicket(p), 2, shown, true, false)
    case FinishHandshake => Place([], 1, shown, true, true)
    case Done => Place([], 0, shown, true, true)
  }

  predicate FullOnly(s: State) {
    s in {SendServerCertificate, SendServerKeyExchange, SendServerHelloDone, ReadClientCertificate, VerifyClientCertificate,
          ReadClientKeyExchange, ReadClientCertificateVerify}
  }

  /** From state `s` to state `t` on the same terms: after `first`, if it is there. */
  predicate Leads(p: Params, s: State, t: State, there: bool, first: Event) {
    var a, b := PlaceOf(p, s), PlaceOf(p, t);
    && b.shown == a.shown && b.opens == a.opens && b.seals == a.seals
    && a.rest == (if there then [first] + b.rest else b.rest) && (b.rank == 0 ==> b.rest == [])
  }

  predicate Lowers(p: Params, s: State, t: State) {
    PlaceOf(p, t).rank < PlaceOf(p, s).rank
  }

  /** The client's message comes next, and so does none of the server's before it. */
  predicate Owed(p: Params, s: State) {
    var a := PlaceOf(p, s);
    a.rank > 0 && a.rest != [] && a.rest[0].from == Client && a.rest[0].kind != ChangeCipherSpec
  }

  predicate Comes(p: Params, s: State, kind: Kind) {
    PlaceOf(p, s).rest != [] && PlaceOf(p, s).rest[0].kind == kind
  }

  predicate NextIsServers(p: Params, s: State) {
    PlaceOf(p, s).rest != [] && PlaceOf(p, s).rest[0].from == Server
  }

  lemma StartPlaces(p: Params)
    ensures Lowers(p, StartAccept, ReadClientHello) && Leads(p, StartAccept, ReadClientHello, false, Event(Client, ClientHello))
    ensures Lowers(p, ReadClientHello, SelectCertificate) && Leads(p, ReadClientHello, SelectCertificate, false, Event(Client, ClientHello))
    ensures Lowers(p, SelectCertificate, SelectParameters) && Leads(p, SelectCertificate, SelectParameters, false, Event(Client, ClientHello))
    ensures Owed(p, ReadClientHello) && Owed(p, SelectCertificate) && Owed(p, SelectParameters)
    ensures Comes(p, ReadClientHello, ClientHello)
    ensures PlaceOf(p, SelectParameters) == Place(Script(p), 16, false, false, false)
  {
    hide FromServerHello;
  }

  lemma HelloTaken(p: Params)
    ensures Lowers(p, SelectParameters, SendServerHello)
    ensures Leads(p, SelectParameters, SendServerHello, true, Event(Client, ClientHello))
  {
    hide FromServerHello;
  }

  lemma HelloPlaces(p: Params)
    ensures var t := if p.resumed then SendServerFinished else SendServerCertificate;
      && Lowers(p, SendServerHello, t) && PlaceOf(p, t).rank > 0 && NextIsServers(p, t)
      && Leads(p, SendServerHello, t, true, Event(Server, ServerHello))
  {
    HelloParts(p);
    hide FromTicket, FromServerCertificate;
  }

  lemma HelloParts(p: Params)
    ensures FromTicket(p) != [] && FromTicket(p)[0].from == Server
    ensures FromServerCertificate(p) != [] && FromServerCertificate(p)[0].from == Server
  {
    TicketParts(p);
    ServerNext(p);
    hide FromTicket, FromServerCertificate, FromCertificateStatus, FromServerKeyExchange, FromCertificateRequest, FromHelloDone;
  }

  /** What the server sends in a full handshake, from each point on. */
  lemma ServerNext(p: Params)
    ensures FromServerCertificate(p) ==
      (if p.certAuth then [Event(Server, Certificate)] + FromCertificateStatus(p) else FromCertificateStatus(p))
    ensures FromCertificateStatus(p) ==
      (if p.status then [Event(Server, CertificateStatus)] + FromServerKeyExchange(p) else FromServerKeyExchange(p))
    ensures FromServerKeyExchange(p) ==
      (if p.keyExchange then [Event(Server, ServerKeyExchange)] + FromCertificateRequest(p) else FromCertificateRequest(p))
    ensures FromCertificateRequest(p) ==
      (if p.certRequest then [Event(Server, CertificateRequest)] + FromHelloDone(p) else FromHelloDone(p))
    ensures FromHelloDone(p) == [Event(Server, ServerHelloDone)] + FromClientCertificate(p)
  {
    hide FromClientCertificate;
  }

  lemma CertificatesPart(p: Params)
    ensures var a, b := PlaceOf(p, SendServerCertificate), PlaceOf(p, SendServerKeyExchange);
      && 0 < b.rank < a.rank && b.shown == a.shown && b.opens == a.opens && b.seals == a.seals
      && a.rest == FromServerCertificate(p) && b.rest == FromServerKeyExchange(p) && NextIsServers(p, SendServerKeyExchange)
  {
    ServerNext(p);
    hide FromServerCertificate, FromCertificateStatus, FromServerKeyExchange, FromCertificateRequest, FromHelloDone, FromClientCertificate;
  }

  lemma KeyExchangePart(p: Params)
    ensures Lowers(p, SendServerKeyExchange, SendServerHelloDone) && PlaceOf(p, SendServerHelloDone).rank > 0
    ensures NextIsServers(p, SendServerHelloDone)
    ensures Leads(p, SendServerKeyExchange, SendServerHelloDone, p.keyExchange, Event(Server, ServerKeyExchange))
  {
    ServerNext(p);
    hide FromServerCertificate, FromCertificateStatus, FromServerKeyExchange, FromCertificateRequest, FromHelloDone, FromClientCertificate;
  }

  lemma HelloDonePart(p: Params)
    ensures var a, b := PlaceOf(p, SendServerHelloDone), PlaceOf(p, ReadClientCertificate);
      && 0 < b.rank < a.rank && b.shown == a.shown && b.opens == a.opens && b.seals == a.seals
      && a.rest == FromCertificateRequest(p) && b.rest == FromClientCertificate(p)
  {
    hide FromCertificateRequest, FromClientCertificate;
  }

  lemma ClientCertificatePlaces(p: Params)
    ensures p.certRequest ==> Owed(p, ReadClientCertificate) && Comes(p, ReadClientCertificate, Certificate)
    ensures Lowers(p, ReadClientCertificate, VerifyClientCertificate)
    ensures var a, b := PlaceOf(p, ReadClientCertificate), PlaceOf(p, VerifyClientCertificate);
      && a == Place(a.rest, 11, false, false, false) && b == Place(b.rest, 10, !p.resumed && p.certRequest && p.clientCert, false, false)
      && a.rest == if p.certRequest then [Event(Client, Certificate)] + b.rest else b.rest
  {
    hide FromClientKeyExchange;
  }

  lemma KeyExchangePlaces(p: Params)
    ensures Lowers(p, VerifyClientCertificate, ReadClientKeyExchange)
    ensures Leads(p, VerifyClientCertificate, ReadClientKeyExchange, false, Event(Client, ClientKeyExchange))
    ensures Owed(p, ReadClientKeyExchange) && Comes(p, ReadClientKeyExchange, ClientKeyExchange)
    ensures Lowers(p, ReadClientKeyExchange, ReadClientCertificateVerify)
    ensures Leads(p, ReadClientKeyExchange, ReadClientCertificateVerify, true, Event(Client, ClientKeyExchange))
  {
    hide FromCertificateVerify;
  }

  lemma CertificateVerifyPart(p: Params)
    ensures FromCertificateVerify(p) ==
      if p.certRequest && p.clientCert then [Event(Client, CertificateVerify)] + FromClientCcs(p) else FromClientCcs(p)
  {
    hide FromClientCcs;
  }

  lemma ProofPlaces(p: Params)
    ensures Lowers(p, ReadClientCertificateVerify, AwaitChangeCipherSpec)
    ensures var shown := p.certRequest && p.clientCert;
      && (!p.resumed ==> Leads(p, ReadClientCertificateVerify, AwaitChangeCipherSpec, shown, Event(Client, CertificateVerify)))
      && (shown ==> Owed(p, ReadClientCertificateVerify) && Comes(p, ReadClientCertificateVerify, CertificateVerify))
      && (!p.resumed ==> PlaceOf(p, ReadClientCertificateVerify).shown == shown)
  {
    hide FromClientCcs;
  }

  lemma ChangePart(p: Params)
    ensures FromClientCcs(p) == [Event(Client, ChangeCipherSpec)] + FromNextProto(p)
    ensures var a, b, c := PlaceOf(p, AwaitChangeCipherSpec), PlaceOf(p, ProcessChangeCipherSpec), PlaceOf(p, ReadNextProto);
      && 0 < c.rank < b.rank < a.rank && c.shown == b.shown == a.shown && !a.opens && !b.opens && c.opens && c.seals == b.seals == a.seals
      && a.rest == FromClientCcs(p) && b.rest == c.rest == FromNextProto(p)
  {
    ChangeFirst(p);
    hide FromNextProto, FromClientCcs;
  }

  lemma ChangeFirst(p: Params)
    ensures FromClientCcs(p) == [Event(Client, ChangeCipherSpec)] + FromNextProto(p)
  {
  }

  lemma NextProtoPlaces(p: Params)
    ensures Lowers(p, ReadNextProto, ReadChannelId) && Leads(p, ReadNextProto, ReadChannelId, p.npn, Event(Client, NextProto))
    ensures p.npn ==> Owed(p, ReadNextProto) && Comes(p, ReadNextProto, NextProto)
  {
    hide FromChannelId;
  }

  lemma ChannelIdPlaces(p: Params)
    ensures Lowers(p, ReadChannelId, ReadClientFinished) && Leads(p, ReadChannelId, ReadClientFinished, p.channelId, Event(Client, ChannelId))
    ensures p.channelId ==> Owed(p, ReadChannelId) && Comes(p, ReadChannelId, ChannelId)
  {
    hide FromClientFinished;
  }

  lemma FinishedPart(p: Params)
    ensures var t := if p.resumed then FinishHandshake else SendServerFinished;
      Lowers(p, ReadClientFinished, t) && Leads(p, ReadClientFinished, t, true, Event(Client, Finished))
    ensures Owed(p, ReadClientFinished) && Comes(p, ReadClientFinished, Finished)
  {
    assert ServerFlight(p) + [] == ServerFlight(p);
  }

  lemma TicketParts(p: Params)
    ensures FromTicket(p) == (if p.ticket then [Event(Server, NewSessionTicket)] + FromServerCcs(p) else FromServerCcs(p))
    ensures FromServerCcs(p) == [Event(Server, ChangeCipherSpec)] + FromServerFinished(p)
    ensures FromServerFinished(p) == [Event(Server, Finished)] + if p.resumed then FromClientCcs(p) else []
    ensures FromClientCcs(p) != [] && FromClientCcs(p)[0] == Event(Client, ChangeCipherSpec)
  {
  }

  lemma FlightPart(p: Params)
    ensures var a, b := PlaceOf(p, SendServerFinished), PlaceOf(p, if p.resumed then AwaitChangeCipherSpec else FinishHandshake);
      && 0 < b.rank < a.rank && b.shown == a.shown && b.opens == a.opens && !a.seals && b.seals
      && a.rest == FromTicket(p) && FromServerFinished(p) == [Event(Server, Finished)] + b.rest
  {
    TicketParts(p);
    hide FromTicket, FromServerCcs, FromServerFinished, FromClientCcs;
  }

  lemma EndPlaces(p: Params)
    ensures Lowers(p, FinishHandshake, Done) && Leads(p, FinishHandshake, Done, false, Event(Client, Finished))
  {
  }

  // ---- What each state may rely on, whatever the client does ----

  predicate BeforeCertificate(s: State) {
    s in {StartAccept, ReadClientHello, SelectCertificate, SelectParameters, SendServerHello, SendServerCertificate,
          SendServerKeyExchange, SendServerHelloDone, ReadClientCertificate}
  }

  predicate PastVerification(s: State) {
    !BeforeCertificate(s) && s != VerifyClientCertificate
  }

  predicate PastProof(s: State) {
    PastVerification(s) && s !in {ReadClientKeyExchange, ReadClientCertificateVerify}
  }

  predicate PastFinished(p: Params, s: State) {
    s in {FinishHandshake, Done} || (!p.resumed && s == SendServerFinished)
  }

  predicate PastChange(p: Params, s: State) {
    s in {ReadNextProto, ReadChannelId, ReadClientFinished} || PastFinished(p, s)
  }

  /** The client has shown a certificate: an empty message stands for none. */
  ghost predicate HeardCertificate(log: seq<Entry<State>>) {
    exists k :: 0 <= k < |log| && IsCertificate(log[k])
  }

  ghost predicate IsCertificate(e: Entry<State>) {
    e.Heard? && KindOf(e.m) == Certificate && e.m.data != []
  }

  /** `shown`: a client that has shown a certificate has had it verified, and has then proved with a
      valid signature that it is its own; and the client's Finished has been verified after the read
      keys changed. */
  ghost predicate Assured(p: Params, s: State, shown: bool, log: seq<Entry<State>>) {
    && (FullOnly(s) ==> !p.resumed)
    && (shown <==> HeardCertificate(log)) && (shown ==> !p.resumed && !BeforeCertificate(s))
    && (shown && PastVerification(s) ==> Granted(log, VerifyClientCertificate))
    && (shown && PastProof(s) ==> HeardKind(log, CertificateVerify))
    && Signed(log, CertificateVerify) && Signed(log, ChannelId)
    && (PastChange(p, s) ==> KeysChanged in log)
    && (PastFinished(p, s) ==> FinishedVerified(log, Client))
  }

  /** State `t` relies on no more than state `s`. */
  predicate NoMore(p: Params, s: State, t: State) {
    && (FullOnly(t) ==> FullOnly(s) || !p.resumed) && (BeforeCertificate(t) ==> BeforeCertificate(s))
    && (PastVerification(t) ==> PastVerification(s) || BeforeCertificate(s))
    && (PastProof(t) ==> PastProof(s) || BeforeCertificate(s))
    && (PastChange(p, t) ==> PastChange(p, s)) && (PastFinished(p, t) ==> PastFinished(p, s))
  }

  lemma AssuredGoesOn(p: Params, s: State, t: State, shown: bool, log: seq<Entry<State>>)
    requires Assured(p, s, shown, log) && NoMore(p, s, t)
    ensures Assured(p, t, shown, log)
  {
  }

  /** A certificate is taken in one place only; a proof of its possession, or a Channel ID, after a
      valid signature. */
  ghost predicate Due(log: seq<Entry<State>>, e: Entry<State>) {
    && !IsCertificate(e)
    && (e.Heard? && KindOf(e.m) in {CertificateVerify, ChannelId} ==>
          log != [] && log[|log| - 1].Answered? && log[|log| - 1].answer.valid)
  }

  lemma CertificateStays(log: seq<Entry<State>>, e: Entry<State>)
    ensures HeardCertificate(log + [e]) <==> HeardCertificate(log) || IsCertificate(e)
  {
    var more := log + [e];
    if HeardCertificate(log) {
      var k :| 0 <= k < |log| && IsCertificate(log[k]);
      assert more[k] == log[k];
    }
    if IsCertificate(e) {
      assert more[|log|] == e;
    }
  }

  lemma AssuredGrows(p: Params, s: State, shown: bool, log: seq<Entry<State>>, e: Entry<State>)
    requires Assured(p, s, shown, log) && Due(log, e)
    ensures Assured(p, s, shown, log + [e])
  {
    hide Granted, Signed, FinishedVerified, HeardCertificate, HeardKind, IsCertificate;
    CertificateStays(log, e);
    SignedStays(log, e, CertificateVerify);
    SignedStays(log, e, ChannelId);
    HeardStays(log, e, CertificateVerify);
    if shown && PastVerification(s) {
      GrantedStays(log, e, VerifyClientCertificate);
    }
    if PastFinished(p, s) {
      FinishedStays(log, e, Client);
    }
  }

  /** Taking the Certificate message, empty or not. */
  lemma CertificateCounts(p: Params, shown: bool, log: seq<Entry<State>>, m: Msg)
    requires Assured(p, ReadClientCertificate, shown, log) && KindOf(m) == Certificate
    ensures Assured(p, VerifyClientCertificate, m.data != [], log + [Heard(m)])
  {
    hide Granted, Signed, FinishedVerified, HeardCertificate, HeardKind;
    CertificateStays(log, Heard(m));
    SignedStays(log, Heard(m), CertificateVerify);
    SignedStays(log, Heard(m), ChannelId);
  }

  lemma VerificationCounts(p: Params, shown: bool, log: seq<Entry<State>>, a: Answer)
    requires Assured(p, VerifyClientCertificate, shown, log)
    requires shown ==> Last(log, VerifyClientCertificate, a) && a.outcome == Succeeded
    ensures Assured(p, ReadClientKeyExchange, shown, log)
  {
    hide Signed, FinishedVerified, HeardCertificate, HeardKind;
  }

  lemma NoProofNeeded(p: Params, log: seq<Entry<State>>)
    requires Assured(p, ReadClientCertificateVerify, false, log)
    ensures Assured(p, AwaitChangeCipherSpec, false, log)
  {
    hide Granted, Signed, FinishedVerified, HeardCertificate, HeardKind;
  }

  lemma ProofCounts(p: Params, shown: bool, log: seq<Entry<State>>, m: Msg)
    requires Assured(p, ReadClientCertificateVerify, shown, log) && KindOf(m) == CertificateVerify && Due(log, Heard(m))
    ensures Assured(p, AwaitChangeCipherSpec, shown, log + [Heard(m)])
  {
    AssuredGrows(p, ReadClientCertificateVerify, shown, log, Heard(m));
    HeardStays(log, Heard(m), CertificateVerify);
    hide Granted, Signed, FinishedVerified, HeardCertificate, HeardKind, Due;
  }

  lemma ChangeCounts(p: Params, shown: bool, log: seq<Entry<State>>)
    requires Assured(p, ProcessChangeCipherSpec, shown, log)
    ensures Assured(p, ReadNextProto, shown, log + [KeysChanged])
  {
    AssuredGrows(p, ProcessChangeCipherSpec, shown, log, KeysChanged);
    hide Granted, Signed, FinishedVerified, HeardCertificate, HeardKind;
    assert (log + [KeysChanged])[|log|] == KeysChanged;
  }

  lemma NotACertificate(m: Msg)
    requires m.Fin?
    ensures !IsCertificate(Heard(m))
  {
  }

  lemma FinishedCounts(p: Params, shown: bool, log: seq<Entry<State>>)
    requires Assured(p, ReadClientFinished, shown, log)
    ensures Assured(p, if p.resumed then FinishHandshake else SendServerFinished, shown, log + [Heard(Fin(Client, Hashed(log)))])
  {
    hide Granted, Signed, FinishedVerified, HeardCertificate, HeardKind, IsCertificate;
    var m := Fin(Client, Hashed(log));
    NotACertificate(m);
    AssuredGrows(p, ReadClientFinished, shown, log, Heard(m));
    FinishedNow(log, Client);
  }

  // ---- What the steps send ----

  function CertificateItems(p: Params, a: Answer, sealed: bool): seq<Item> {
    if p.certAuth then
      [Hs(Plain(Certificate, [1] + a.data), sealed)] + if p.status then [Hs(Plain(CertificateStatus, a.data), sealed)] else []
    else []
  }

  function HelloDoneItems(p: Params, a: Answer, sealed: bool): seq<Item> {
    (if p.certRequest then [Hs(Plain(CertificateRequest, a.data), sealed)] else []) + [Hs(Plain(ServerHelloDone, []), sealed)]
  }

  /** What goes before the Finished. */
  function TicketItems(p: Params, a: Answer, sealed: bool): seq<Item> {
    (if p.ticket then [Hs(Plain(NewSessionTicket, a.data), sealed)] else []) + [Ccs]
  }

  /** NewSessionTicket, ChangeCipherSpec and a Finished over all that was hashed before it. */
  function FinishedFlight(p: Params, a: Answer, sealed: bool, before: seq<Msg>): seq<Item> {
    TicketItems(p, a, sealed) + [Hs(Fin(Server, before + Messages(TicketItems(p, a, sealed))), true)]
  }

  /** `after` is `before` with these items added. */
  predicate Extends(before: View, after: View, items: seq<Item>, writing: bool) {
    after == before.(rest := after.rest, outbox := before.outbox + items, transcript := before.transcript + Messages(items), writing := writing)
  }

  lemma CertificatesSend(p: Params, a: Answer, before: View, after: View)
    requires before.rest == FromServerCertificate(p) && after.rest == FromServerKeyExchange(p) && (p.status ==> p.certAuth)
    requires Extends(before, after, CertificateItems(p, a, before.writing), before.writing)
    ensures Sends(p, Server, before, after)
  {
    hide Sends, Genuine, FromServerCertificate, FromCertificateStatus, FromServerKeyExchange, Messages;
    ServerNext(p);
    NothingToAdd(before);
    SendsNothing(p, Server, before, before);
    if p.certAuth {
      var chain := Hs(Plain(Certificate, [1] + a.data), before.writing);
      CertificateIsGenuine(p, Server, chain.m, before.transcript);
      var more := Adding(p, Server, before, before, [], chain, FromCertificateStatus(p));
      assert [] + [chain] == [chain];
      if p.status {
        var status := Hs(Plain(CertificateStatus, a.data), before.writing);
        PlainIsGenuine(p, Server, CertificateStatus, a.data, more.transcript);
        var most := Adding(p, Server, before, more, [chain], status, FromServerKeyExchange(p));
        assert CertificateItems(p, a, before.writing) == [chain] + [status];
      } else {
        assert CertificateItems(p, a, before.writing) == [chain];
      }
    }
  }

  lemma HelloDoneSends(p: Params, a: Answer, before: View, after: View)
    requires before.rest == FromCertificateRequest(p) && after.rest == FromClientCertificate(p)
    requires Extends(before, after, HelloDoneItems(p, a, before.writing), before.writing)
    ensures Sends(p, Server, before, after)
  {
    hide Sends, Genuine, FromCertificateRequest, FromHelloDone, FromClientCertificate, Messages;
    ServerNext(p);
    NothingToAdd(before);
    SendsNothing(p, Server, before, before);
    var most, items := before, [];
    if p.certRequest {
      PlainIsGenuine(p, Server, CertificateRequest, a.data, most.transcript);
      most := Adding(p, Server, before, most, items, Hs(Plain(CertificateRequest, a.data), before.writing), FromHelloDone(p));
      items := items + [Hs(Plain(CertificateRequest, a.data), before.writing)];
    }
    PlainIsGenuine(p, Server, ServerHelloDone, [], most.transcript);
    most := Adding(p, Server, before, most, items, Hs(Plain(ServerHelloDone, []), before.writing), FromClientCertificate(p));
    items := items + [Hs(Plain(ServerHelloDone, []), before.writing)];
    assert items == HelloDoneItems(p, a, before.writing);
  }

  lemma FinishedFlightSends(p: Params, a: Answer, before: View, after: View)
    requires before.rest == FromTicket(p) && !before.writing && FromServerFinished(p) == [Event(Server, Finished)] + after.rest
    requires Extends(before, after, FinishedFlight(p, a, false, before.transcript), true)
    ensures Sends(p, Server, before, after)
  {
    hide Sends, Genuine, FromTicket, FromServerCcs, FromServerFinished, FromClientCcs, Messages;
    TicketParts(p);
    NothingToAdd(before);
    SendsNothing(p, Server, before, before);
    var most, items := before, [];
    if p.ticket {
      PlainIsGenuine(p, Server, NewSessionTicket, a.data, most.transcript);
      most := Adding(p, Server, before, most, items, Hs(Plain(NewSessionTicket, a.data), false), FromServerCcs(p));
      items := items + [Hs(Plain(NewSessionTicket, a.data), false)];
    }
    most := Adding(p, Server, before, most, items, Ccs, FromServerFinished(p));
    items := items + [Ccs];
    assert items == TicketItems(p, a, false);
    var fin := Fin(Server, most.transcript);
    FinishedIsGenuine(p, Server, most.transcript);
    most := Adding(p, Server, before, most, items, Hs(fin, true), after.rest);
  }

  // ---- The flow of a handshake with any client at all ----

  /** What is still to come in a state; the client's ChangeCipherSpec counts once the keys have changed. */
  function ToCome(p: Params, s: State): seq<Event> {
    match s
    case SendServerHello => FromServerHello(p)
    case SendServerCertificate => FromServerCertificate(p)
    case SendServerKeyExchange => FromServerKeyExchange(p)
    case SendServerHelloDone => FromCertificateRequest(p)
    case ReadClientCertificate => FromClientCertificate(p)
    case VerifyClientCertificate => FromClientKeyExchange(p)
    case ReadClientKeyExchange => FromClientKeyExchange(p)
    case ReadClientCertificateVerify => FromCertificateVerify(p)
    case AwaitChangeCipherSpec => FromClientCcs(p)
    case ProcessChangeCipherSpec => FromClientCcs(p)
    case ReadNextProto => FromNextProto(p)
    case ReadChannelId => FromChannelId(p)
    case ReadClientFinished => FromClientFinished(p)
    case SendServerFinished => FromTicket(p)
    case FinishHandshake => []
    case Done => []
    case _ => Script(p)
  }

  lemma StillToCome(p: Params, s: State)
    ensures ToCome(p, s) == if s == ProcessChangeCipherSpec then FromClientCcs(p) else PlaceOf(p, s).rest
  {
  }

  /** The server's own choices fit together, whatever the client has. */
  predicate OwnTerms(p: Params) {
    && (p.certRequest ==> p.certAuth && !p.resumed)
    && (p.ocsp ==> p.certAuth && !p.resumed) && (p.status ==> p.ocsp)
    && (p.keyRequired ==> p.keyExchange) && (p.keyExchange && p.certAuth ==> p.keyRequired)
  }

  /** What has been said and heard is the script up to here. */
  ghost predicate On(p: Params, s: State, log: seq<Entry<State>>) {
    Flow(Server, log) + ToCome(p, s) == Script(p)
  }

  /** As far as the server can tell: it learns by the Certificate message whether the client has one. */
  predicate Possible(s: State, shown: bool, b: bool) {
    BeforeCertificate(s) || b == shown
  }

  /** The flow follows the script of a client that has a certificate if it showed one, and may have one or
      not before it was asked; and one that must show a certificate did. */
  ghost predicate Follows(p: Params, s: State, shown: bool, log: seq<Entry<State>>) {
    && (shown ==> p.certRequest) && ShownIfRequired(p, s, shown)
    && (OwnTerms(p) ==> forall b | Possible(s, shown, b) :: On(p.(clientCert := b), s, log))
  }

  predicate ShownIfRequired(p: Params, s: State, shown: bool) {
    !BeforeCertificate(s) && !p.resumed && p.certRequest && p.clientCertRequired ==> shown
  }

  lemma NothingAssured(p: Params)
    ensures Assured(p, StartAccept, false, [])
  {
    hide Granted, FinishedVerified, HeardKind;
  }

  lemma StartsFollowing(p: Params)
    ensures Follows(p, StartAccept, false, [])
  {
    hide Script;
    forall b
      ensures On(p.(clientCert := b), StartAccept, [])
    {
      assert [] + Script(p.(clientCert := b)) == Script(p.(clientCert := b));
    }
  }

  lemma Onward(p: Params, s: State, t: State, log: seq<Entry<State>>, more: seq<Event>, next: seq<Entry<State>>)
    requires On(p, s, log) && Flow(Server, next) == Flow(Server, log) + more && ToCome(p, s) == more + ToCome(p, t)
    ensures On(p, t, next)
  {
    hide Script, ToCome;
    Assoc(Flow(Server, log), more, ToCome(p, t));
  }

  lemma CertificateEvents(p: Params, a: Answer, sealed: bool)
    requires p.status ==> p.certAuth
    ensures FromServerCertificate(p) == Events(Server, CertificateItems(p, a, sealed)) + FromServerKeyExchange(p)
  {
    hide FromServerCertificate, FromCertificateStatus, FromServerKeyExchange, Events;
    ServerNext(p);
    NoEvents(Server, FromServerKeyExchange(p));
    var status: seq<Item> := if p.status then [Hs(Plain(CertificateStatus, a.data), sealed)] else [];
    if p.status {
      OneEventMore(Server, Hs(Plain(CertificateStatus, a.data), sealed), [], FromServerKeyExchange(p), FromServerKeyExchange(p));
      assert [Hs(Plain(CertificateStatus, a.data), sealed)] + [] == status;
    }
    if p.certAuth {
      OneEventMore(Server, Hs(Plain(Certificate, [1] + a.data), sealed), status, FromCertificateStatus(p), FromServerKeyExchange(p));
    }
  }

  lemma HelloDoneEvents(p: Params, a: Answer, sealed: bool)
    ensures FromCertificateRequest(p) == Events(Server, HelloDoneItems(p, a, sealed)) + FromClientCertificate(p)
  {
    hide FromCertificateRequest, FromHelloDone, FromClientCertificate, Events;
    ServerNext(p);
    NoEvents(Server, FromClientCertificate(p));
    var done := Hs(Plain(ServerHelloDone, []), sealed);
    OneEventMore(Server, done, [], FromClientCertificate(p), FromClientCertificate(p));
    assert [done] + [] == [done];
    if p.certRequest {
      OneEventMore(Server, Hs(Plain(CertificateRequest, a.data), sealed), [done], FromHelloDone(p), FromClientCertificate(p));
    } else {
      assert [] + [done] == [done];
    }
  }

  lemma FinishedFlightEvents(p: Params, a: Answer, sealed: bool, before: seq<Msg>)
    ensures FromTicket(p) == Events(Server, FinishedFlight(p, a, sealed, before)) + if p.resumed then FromClientCcs(p) else []
  {
    hide FromTicket, FromServerCcs, FromServerFinished, FromClientCcs, Messages, Events;
    TicketParts(p);
    var to := if p.resumed then FromClientCcs(p) else [];
    var fin := Hs(Fin(Server, before + Messages(TicketItems(p, a, sealed))), true);
    NoEvents(Server, to);
    OneEventMore(Server, fin, [], to, to);
    assert [fin] + [] == [fin];
    OneEventMore(Server, Ccs, [fin], FromServerFinished(p), to);
    if p.ticket {
      OneEventMore(Server, Hs(Plain(NewSessionTicket, a.data), sealed), [Ccs] + [fin], FromServerCcs(p), to);
      assert [Hs(Plain(NewSessionTicket, a.data), sealed)] + ([Ccs] + [fin]) == FinishedFlight(p, a, sealed, before);
    } else {
      assert [Ccs] + [fin] == FinishedFlight(p, a, sealed, before);
    }
  }

  lemma HelloPart(p: Params)
    ensures FromServerHello(p) == [Event(Server, ServerHello)] + if p.resumed then FromTicket(p) else FromServerCertificate(p)
  {
    hide FromTicket, FromServerCertificate;
  }

  /** What the client says, from the ClientKeyExchange on. */
  lemma ClientNext(p: Params)
    ensures FromClientKeyExchange(p) == [Event(Client, ClientKeyExchange)] + FromCertificateVerify(p)
    ensures FromNextProto(p) == if p.npn then [Event(Client, NextProto)] + FromChannelId(p) else FromChannelId(p)
    ensures FromChannelId(p) == if p.channelId then [Event(Client, ChannelId)] + FromClientFinished(p) else FromClientFinished(p)
  {
    hide FromCertificateVerify, FromClientFinished;
  }

  lemma FinishedLast(p: Params)
    ensures FromClientFinished(p) == [Event(Client, Finished)] + if p.resumed then [] else FromTicket(p)
  {
    assert ServerFlight(p) + [] == ServerFlight(p);
  }

  // ---- One step of the flow ----

  datatype Moment = Moment(state: State, inbox: seq<Msg>, transcript: seq<Msg>, shown: bool, writing: bool, log: seq<Entry<State>>)

  ghost predicate Rests(x: Moment, y: Moment) {
    y.state == x.state && y.log == x.log && y.shown == x.shown
  }

  ghost predicate Passes(x: Moment, y: Moment, s: State) {
    y.state == s && y.log == x.log && y.shown == x.shown
  }

  ghost predicate Hears(x: Moment, y: Moment, s: State) {
    x.inbox != [] && y.state == s && y.log == x.log + [Heard(x.inbox[0])]
  }

  ghost predicate Says(x: Moment, y: Moment, items: seq<Item>, s: State) {
    y.state == s && y.log == x.log + SaidAll(items) && y.shown == x.shown
  }

  predicate Next(x: Moment, kind: Kind) {
    x.inbox != [] && KindOf(x.inbox[0]) == kind
  }

  /** The step due at moment `x`, with what the contracts of the steps say of the flow. */
  ghost predicate Did(p: Params, a: Answer, x: Moment, y: Moment) {
    match x.state
    case StartAccept => Passes(x, y, ReadClientHello)
    case ReadClientHello => Rests(x, y) || Passes(x, y, SelectCertificate)
    case SelectCertificate => Rests(x, y) || Passes(x, y, SelectParameters)
    case SelectParameters => Rests(x, y) || (Hears(x, y, SendServerHello) && y.shown == x.shown)
    case SendServerHello =>
      Says(x, y, [Hs(Plain(ServerHello, a.data), x.writing)], if p.resumed then SendServerFinished else SendServerCertificate)
    case SendServerCertificate => Says(x, y, CertificateItems(p, a, x.writing), SendServerKeyExchange)
    case SendServerKeyExchange =>
      if !p.keyExchange then Passes(x, y, SendServerHelloDone)
      else Rests(x, y) || Says(x, y, [Hs(Plain(ServerKeyExchange, a.data), x.writing)], SendServerHelloDone)
    case SendServerHelloDone => Says(x, y, HelloDoneItems(p, a, x.writing), ReadClientCertificate)
    case ReadClientCertificate =>
      if !p.certRequest then Passes(x, y, VerifyClientCertificate)
      else if !Next(x, Certificate) || (x.inbox[0].data == [] && p.clientCertRequired) then Rests(x, y)
      else Hears(x, y, VerifyClientCertificate) && y.shown == (x.inbox[0].data != [])
    case VerifyClientCertificate => Rests(x, y) || Passes(x, y, ReadClientKeyExchange)
    case ReadClientKeyExchange => Rests(x, y) || (Next(x, ClientKeyExchange) && Hears(x, y, ReadClientCertificateVerify) && y.shown == x.shown)
    case ReadClientCertificateVerify =>
      if !x.shown then Passes(x, y, AwaitChangeCipherSpec)
      else Rests(x, y) || (Next(x, CertificateVerify) && Hears(x, y, AwaitChangeCipherSpec) && y.shown == x.shown)
    case AwaitChangeCipherSpec => Passes(x, y, ProcessChangeCipherSpec)
    case ProcessChangeCipherSpec => y.state == ReadNextProto && y.log == x.log + [KeysChanged] && y.shown == x.shown
    case ReadNextProto =>
      if !p.npn then Passes(x, y, ReadChannelId)
      else Rests(x, y) || (Next(x, NextProto) && Hears(x, y, ReadChannelId) && y.shown == x.shown)
    case ReadChannelId =>
      if !p.channelId then Passes(x, y, ReadClientFinished)
      else Rests(x, y) || (Next(x, ChannelId) && Hears(x, y, ReadClientFinished) && y.shown == x.shown)
    case ReadClientFinished =>
      Rests(x, y) || (x.inbox != [] && x.inbox[0] == Fin(Client, x.transcript) && y.shown == x.shown
                      && Hears(x, y, if p.resumed then FinishHandshake else SendServerFinished))
    case SendServerFinished =>
      Says(x, y, FinishedFlight(p, a, x.writing, x.transcript), if p.resumed then AwaitChangeCipherSpec else FinishHandshake)
    case FinishHandshake => Passes(x, y, Done)
    case Done => false
  }

  /** The step taken is the next part of the flow. */
  lemma StepFollows(p: Params, a: Answer, x: Moment, y: Moment)
    requires Did(p, a, x, y) && Follows(p, x.state, x.shown, x.log) && Holding(x.state, x.inbox)
    ensures Follows(p, y.state, y.shown, y.log)
  {
    hide On, Did;
    CertificateShown(p, a, x, y);
    if OwnTerms(p) {
      forall b | Possible(y.state, y.shown, b)
        ensures On(p.(clientCert := b), y.state, y.log)
      {
        assert Possible(x.state, x.shown, b);
        NextPart(p, p.(clientCert := b), a, x, y);
      }
    }
  }

  lemma CertificateShown(p: Params, a: Answer, x: Moment, y: Moment)
    requires Did(p, a, x, y) && (x.shown ==> p.certRequest) && ShownIfRequired(p, x.state, x.shown)
    ensures (y.shown ==> p.certRequest) && ShownIfRequired(p, y.state, y.shown)
    ensures forall b :: Possible(y.state, y.shown, b) ==> Possible(x.state, x.shown, b)
  {
    hide CertificateItems, HelloDoneItems, FinishedFlight, SaidAll;
  }

  /** What a step has to do with the script of a client that may have a certificate or not. */
  ghost predicate AtPart(p: Params, q: Params, a: Answer, x: Moment, y: Moment) {
    && Did(p, a, x, y) && OwnTerms(p) && q == p.(clientCert := q.clientCert) && On(q, x.state, x.log)
    && (x.shown ==> p.certRequest) && Possible(x.state, x.shown, q.clientCert) && Possible(y.state, y.shown, q.clientCert)
    && Holding(x.state, x.inbox)
  }

  lemma NextPart(p: Params, q: Params, a: Answer, x: Moment, y: Moment)
    requires AtPart(p, q, a, x, y)
    ensures On(q, y.state, y.log)
  {
    hide AtPart, On;
    if x.state in {SendServerHello, SendServerCertificate, SendServerKeyExchange, SendServerHelloDone, SendServerFinished} {
      PartSent(p, q, a, x, y);
    } else if x.state in {StartAccept, ReadClientHello, SelectCertificate, SelectParameters, ReadClientCertificate, VerifyClientCertificate} {
      PartBefore(p, q, a, x, y);
    } else if x.state in {ReadClientKeyExchange, ReadClientCertificateVerify, AwaitChangeCipherSpec, ProcessChangeCipherSpec} {
      PartKeys(p, q, a, x, y);
    } else {
      assert x.state.ReadNextProto? || x.state.ReadChannelId? || x.state.ReadClientFinished? || x.state.FinishHandshake? || x.state.Done?;
      PartFinished(p, q, a, x, y);
    }
  }

  lemma SaidThese(q: Params, x: Moment, y: Moment, items: seq<Item>)
    requires y.log == x.log + SaidAll(items) && On(q, x.state, x.log) && ToCome(q, x.state) == Events(Server, items) + ToCome(q, y.state)
    ensures On(q, y.state, y.log)
  {
    hide On, ToCome;
    FlowSaid(Server, x.log, items);
    Onward(q, x.state, y.state, x.log, Events(Server, items), y.log);
  }

  lemma HeardThis(q: Params, x: Moment, y: Moment)
    requires x.inbox != [] && y.log == x.log + [Heard(x.inbox[0])] && On(q, x.state, x.log)
    requires ToCome(q, x.state) == [Event(Client, KindOf(x.inbox[0]))] + ToCome(q, y.state)
    ensures On(q, y.state, y.log)
  {
    hide On, ToCome;
    FlowGrows(Server, x.log, Heard(x.inbox[0]));
    Onward(q, x.state, y.state, x.log, [Event(Client, KindOf(x.inbox[0]))], y.log);
  }

  lemma Unmoved(q: Params, x: Moment, y: Moment)
    requires y.log == x.log && On(q, x.state, x.log) && ToCome(q, x.state) == ToCome(q, y.state)
    ensures On(q, y.state, y.log)
  {
  }

  /** What the server sends does not depend on the client's certificate. */
  lemma SameItems(p: Params, q: Params, a: Answer, sealed: bool, before: seq<Msg>)
    requires q == p.(clientCert := q.clientCert)
    ensures CertificateItems(q, a, sealed) == CertificateItems(p, a, sealed) && HelloDoneItems(q, a, sealed) == HelloDoneItems(p, a, sealed)
    ensures FinishedFlight(q, a, sealed, before) == FinishedFlight(p, a, sealed, before)
  {
    hide Messages;
  }

  lemma PartSent(p: Params, q: Params, a: Answer, x: Moment, y: Moment)
    requires AtPart(p, q, a, x, y)
    requires x.state in {SendServerHello, SendServerCertificate, SendServerKeyExchange, SendServerHelloDone, SendServerFinished}
    ensures On(q, y.state, y.log)
  {
    hide On, Messages, SaidAll, CertificateItems, HelloDoneItems, FinishedFlight, Events, ToCome;
    SameItems(p, q, a, x.writing, x.transcript);
    FlightParts(q, a, x.writing, x.transcript);
    match x.state
    case SendServerHello =>
      OneEvent(Server, Plain(ServerHello, a.data), x.writing);
      SaidThese(q, x, y, [Hs(Plain(ServerHello, a.data), x.writing)]);
    case SendServerCertificate => SaidThese(q, x, y, CertificateItems(p, a, x.writing));
    case SendServerKeyExchange =>
      OneEvent(Server, Plain(ServerKeyExchange, a.data), x.writing);
      if |y.log| == |x.log| {
        Unmoved(q, x, y);
      } else {
        SaidThese(q, x, y, [Hs(Plain(ServerKeyExchange, a.data), x.writing)]);
      }
    case SendServerHelloDone => SaidThese(q, x, y, HelloDoneItems(p, a, x.writing));
    case SendServerFinished => SaidThese(q, x, y, FinishedFlight(p, a, x.writing, x.transcript));
  }

  /** What is still to come where the server speaks. */
  lemma FlightParts(p: Params, a: Answer, sealed: bool, before: seq<Msg>)
    requires p.status ==> p.certAuth
    ensures ToCome(p, SendServerHello) == [Event(Server, ServerHello)] + ToCome(p, if p.resumed then SendServerFinished else SendServerCertificate)
    ensures ToCome(p, SendServerCertificate) == Events(Server, CertificateItems(p, a, sealed)) + ToCome(p, SendServerKeyExchange)
    ensures ToCome(p, SendServerKeyExchange) ==
      if p.keyExchange then [Event(Server, ServerKeyExchange)] + ToCome(p, SendServerHelloDone) else ToCome(p, SendServerHelloDone)
    ensures ToCome(p, SendServerHelloDone) == Events(Server, HelloDoneItems(p, a, sealed)) + ToCome(p, ReadClientCertificate)
    ensures ToCome(p, SendServerFinished) ==
      Events(Server, FinishedFlight(p, a, sealed, before)) + ToCome(p, if p.resumed then AwaitChangeCipherSpec else FinishHandshake)
  {
    hide Messages, CertificateItems, HelloDoneItems, FinishedFlight, Events, FromHelloDone, FromCertificateStatus;
    hide FromServerHello, FromServerCertificate, FromServerKeyExchange, FromCertificateRequest, FromClientCertificate, FromTicket, FromClientCcs;
    HelloPart(p);
    ServerNext(p);
    CertificateEvents(p, a, sealed);
    HelloDoneEvents(p, a, sealed);
    FinishedFlightEvents(p, a, sealed, before);
  }

  lemma PartBefore(p: Params, q: Params, a: Answer, x: Moment, y: Moment)
    requires AtPart(p, q, a, x, y)
    requires x.state in {StartAccept, ReadClientHello, SelectCertificate, SelectParameters, ReadClientCertificate, VerifyClientCertificate}
    ensures On(q, y.state, y.log)
  {
    hide On, ToCome;
    FirstParts(q);
    if |y.log| == |x.log| {
      Unmoved(q, x, y);
    } else {
      HeardThis(q, x, y);
    }
  }

  /** What is still to come before the key exchange. */
  lemma FirstParts(p: Params)
    ensures ToCome(p, StartAccept) == ToCome(p, ReadClientHello) == ToCome(p, SelectCertificate) == ToCome(p, SelectParameters)
    ensures ToCome(p, SelectParameters) == [Event(Client, ClientHello)] + ToCome(p, SendServerHello)
    ensures ToCome(p, ReadClientCertificate) ==
      if p.certRequest then [Event(Client, Certificate)] + ToCome(p, VerifyClientCertificate) else ToCome(p, VerifyClientCertificate)
    ensures ToCome(p, VerifyClientCertificate) == ToCome(p, ReadClientKeyExchange)
  {
    hide FromServerHello, FromClientKeyExchange;
  }

  lemma PartKeys(p: Params, q: Params, a: Answer, x: Moment, y: Moment)
    requires AtPart(p, q, a, x, y)
    requires x.state in {ReadClientKeyExchange, ReadClientCertificateVerify, AwaitChangeCipherSpec, ProcessChangeCipherSpec}
    ensures On(q, y.state, y.log)
  {
    hide On, ToCome;
    KeyParts(q);
    if x.state == ProcessChangeCipherSpec {
      FlowGrows(Server, x.log, KeysChanged);
      Onward(q, x.state, y.state, x.log, [Event(Client, ChangeCipherSpec)], y.log);
    } else if |y.log| == |x.log| {
      Unmoved(q, x, y);
    } else {
      HeardThis(q, x, y);
    }
  }

  /** What is still to come from the key exchange to the change of keys. */
  lemma KeyParts(p: Params)
    ensures ToCome(p, ReadClientKeyExchange) == [Event(Client, ClientKeyExchange)] + ToCome(p, ReadClientCertificateVerify)
    ensures ToCome(p, ReadClientCertificateVerify) ==
      if p.certRequest && p.clientCert then [Event(Client, CertificateVerify)] + ToCome(p, AwaitChangeCipherSpec)
      else ToCome(p, AwaitChangeCipherSpec)
    ensures ToCome(p, AwaitChangeCipherSpec) == ToCome(p, ProcessChangeCipherSpec)
    ensures ToCome(p, ProcessChangeCipherSpec) == [Event(Client, ChangeCipherSpec)] + ToCome(p, ReadNextProto)
  {
    hide FromClientKeyExchange, FromCertificateVerify, FromClientCcs, FromNextProto, FromChannelId, FromClientFinished, FromTicket,
      FromClientCertificate, FromCertificateRequest, FromServerKeyExchange, FromServerCertificate, FromServerHello, Script;
    ClientNext(p);
    CertificateVerifyPart(p);
    ChangeFirst(p);
  }

  lemma PartFinished(p: Params, q: Params, a: Answer, x: Moment, y: Moment)
    requires AtPart(p, q, a, x, y) && x.state in {ReadNextProto, ReadChannelId, ReadClientFinished, FinishHandshake, Done}
    ensures On(q, y.state, y.log)
  {
    hide On, ToCome;
    LastParts(q);
    if |y.log| == |x.log| {
      Unmoved(q, x, y);
    } else {
      HeardThis(q, x, y);
    }
  }

  /** What is still to come in the last states. */
  lemma LastParts(p: Params)
    ensures ToCome(p, ReadNextProto) == if p.npn then [Event(Client, NextProto)] + ToCome(p, ReadChannelId) else ToCome(p, ReadChannelId)
    ensures ToCome(p, ReadChannelId) ==
      if p.channelId then [Event(Client, ChannelId)] + ToCome(p, ReadClientFinished) else ToCome(p, ReadClientFinished)
    ensures ToCome(p, ReadClientFinished) == [Event(Client, Finished)] + ToCome(p, if p.resumed then FinishHandshake else SendServerFinished)
    ensures ToCome(p, FinishHandshake) == ToCome(p, Done)
  {
    hide FromNextProto, FromChannelId, FromClientFinished, FromTicket;
    ClientNext(p);
    FinishedLast(p);
  }

  /** In these states the ClientHello is kept until it is hashed. */
  predicate Holds(s: State) {
    s in {SelectCertificate, SelectParameters}
  }

  predicate Holding(s: State, inbox: seq<Msg>) {
    Holds(s) ==> inbox != [] && KindOf(inbox[0]) == ClientHello
  }

  /** What a server's caller or the network may do next. */
  datatype Input = Step(answer: Answer) | Flushed(n: nat) | Record(items: seq<Item>)

  class ServerMachine {
    const p: Params
    var state: State
    var wait: Wait
    var inbox: seq<Msg>
    var outbox: seq<Item>
    var transcript: seq<Msg>
    var peerCert: bool
    var readKeys: bool
    var writeKeys: bool
    ghost var log: seq<Entry<State>>

    ghost function View(): View
      reads this`state, this`wait, this`inbox, this`outbox, this`transcript, this`readKeys, this`writeKeys
    {
      var waits := state == ProcessChangeCipherSpec && wait == ReadChangeCipherSpec;
      HandshakeScript.View(if waits then FromClientCcs(p) else PlaceOf(p, state).rest, PlaceOf(p, state).rank,
        if wait == Again then Ok else wait, inbox, outbox, transcript,
        readKeys || (state == ProcessChangeCipherSpec && !waits), writeKeys)
    }

    /** The server is where the script says. */
    ghost predicate Valid()
      reads this`state, this`wait, this`inbox, this`outbox, this`transcript, this`peerCert, this`readKeys, this`writeKeys
    {
      && Compatible(p) && Placed(Server, View())
      && (wait == ReadChangeCipherSpec ==> state == ProcessChangeCipherSpec)
      && (state == ProcessChangeCipherSpec ==> wait == ReadChangeCipherSpec || wait == Ok)
      && (FullOnly(state) ==> !p.resumed)
      && var here := PlaceOf(p, state);
      && peerCert == here.shown && readKeys == here.opens && writeKeys == here.seals
    }

    /** What holds of a server that talks to anyone at all. */
    ghost predicate Safe()
      reads this`state, this`inbox, this`transcript, this`peerCert, this`log
    {
      transcript == Hashed(log) && Assured(p, state, peerCert, log) && Holding(state, inbox)
    }

    /** A step may be taken in state `s`, and the world's answer to it is on record. */
    ghost predicate Ready(s: State, a: Answer)
      reads this`state, this`wait, this`log
    {
      wait == Ok && state == s && Last(log, s, a)
    }

    // ---- What a step may do ----

    twostate predicate Same()
      reads this
    {
      inbox == old(inbox) && outbox == old(outbox) && transcript == old(transcript) && log == old(log)
    }

    twostate predicate Waited(w: Wait)
      reads this
    {
      wait == w && state == old(state) && Same()
    }

    twostate predicate Went(s: State)
      reads this
    {
      wait == Ok && state == s && Same()
    }

    /** The first unread message is taken and hashed. */
    twostate predicate Took(s: State, w: Wait)
      reads this
    {
      && old(inbox) != [] && inbox == old(inbox)[1..] && transcript == old(transcript) + [old(inbox)[0]]
      && log == old(log) + [Heard(old(inbox)[0])] && outbox == old(outbox) && state == s && wait == w
    }

    /** Items join the flight, and the messages among them the transcript. */
    twostate predicate Sent(items: seq<Item>, s: State, w: Wait)
      reads this
    {
      && outbox == old(outbox) + items && transcript == old(transcript) + Messages(items) && log == old(log) + SaidAll(items)
      && inbox == old(inbox) && state == s && wait == w
    }

    /** What all steps have in common: one that does not wait lowers the rank; one whose lookup has
        succeeded does something; a step on the script stays on it unless something unexpected was
        read or answered; and a safe server stays safe. */
    twostate predicate Kept(a: Answer)
      reads this
    {
      && (wait == Ok ==> View().rank < old(View()).rank)
      && (a.outcome == Succeeded ==> View() != old(View()))
      && (old(OnScript(a)) ==> Valid() && Moves(p, Server, old(View()), View()))
      && (old(Safe()) ==> Safe())
    }

    twostate predicate Stepped(a: Answer)
      reads this
    {
      Kept(a) && OnlyDeeds(old(log), log)
    }

    /** What has been said and heard is the script so far. */
    ghost predicate Followed()
      reads this`state, this`peerCert, this`log
    {
      Follows(p, state, peerCert, log)
    }

    ghost function Now(): Moment
      reads this`state, this`inbox, this`transcript, this`peerCert, this`writeKeys, this`log
    {
      Moment(state, inbox, transcript, peerCert, writeKeys, log)
    }

    ghost predicate OnScript(a: Answer)
      reads this`state, this`wait, this`inbox, this`outbox, this`transcript, this`peerCert, this`readKeys, this`writeKeys
    {
      Valid() && Favourable(a) && Welcome(p, Server, View())
    }

    constructor (p: Params)
      ensures Safe() && this.p == p && state == StartAccept && wait == Ok && log == []
      ensures Followed() && (Compatible(p) ==> Valid())
      ensures View() == HandshakeScript.View(Script(p), 19, Ok, [], [], [], false, false)
    {
      this.p := p;
      state, wait, inbox, outbox, transcript := StartAccept, Ok, [], [], [];
      peerCert, readKeys, writeKeys, log := false, false, false, [];
      new;
      hide Script, Follows, Assured;
      StartsFollowing(p);
      NothingAssured(p);
    }

    /** What has been said, heard and changed at the end, for any client: exactly the messages of the script,
        in its order, for a client that has a certificate if it showed one; and it showed one if it had to. */
    lemma DoneFollowed()
      requires Safe() && Followed() && state == Done
      ensures !p.resumed && p.certRequest && p.clientCertRequired ==> HeardCertificate(log)
      ensures OwnTerms(p) ==>
        && Flow(Server, log) == Script(p.(clientCert := peerCert)) && Compatible(p.(clientCert := peerCert))
        && (peerCert <==> HeardCertificate(log))
    {
      hide Script, Granted, HeardCertificate, HeardKind, Signed, Hashed, Flow;
      if OwnTerms(p) {
        var q := p.(clientCert := peerCert);
        assert Possible(state, peerCert, peerCert) && On(q, state, log);
        assert Flow(Server, log) + [] == Flow(Server, log);
      }
    }

    /** Safety (sections 7.3 and 7.4.9 of RFC 5246): a server that is done changed its read keys and
        then verified a Finished of the client over exactly its own transcript up to there; and a
        client that showed a certificate had it verified and proved with a valid signature that it
        holds the key. */
    lemma DoneIsSafe()
      requires Safe() && state == Done
      ensures transcript == Hashed(log)
      ensures exists i, k :: 0 <= i < k < |log| && log[i].KeysChanged? && log[k] == Heard(Fin(Client, Hashed(log[..k])))
      ensures HeardCertificate(log) ==>
        && Granted(log, VerifyClientCertificate)
        && exists k :: 0 < k < |log| && log[k].Heard? && KindOf(log[k].m) == CertificateVerify
             && log[k - 1].Answered? && log[k - 1].answer.valid
    {
      hide Granted, HeardCertificate, HeardKind, Signed;
      if HeardCertificate(log) {
        SignedMeans(log, CertificateVerify);
      }
    }

    // ---- The flight and the transcript ----

    /** ssl3_add_message: into the flight and into the transcript. */
    method AddMessage(m: Msg)
      modifies this`outbox, this`transcript, this`log
      ensures outbox == old(outbox) + [Hs(m, writeKeys)] && transcript == old(transcript) + [m]
      ensures log == old(log) + [Said(Hs(m, writeKeys))]
      ensures old(Safe()) ==> Safe()
    {
      hide Assured;
      outbox := outbox + [Hs(m, writeKeys)];
      transcript := transcript + [m];
      Logged(Said(Hs(m, writeKeys)));
      log := log + [Said(Hs(m, writeKeys))];
    }

    lemma Logged(e: Entry<State>)
      ensures Hashed(log + [e]) == Hashed(log) + MessageOf(e)
      ensures Assured(p, state, peerCert, log) && Due(log, e) ==> Assured(p, state, peerCert, log + [e])
    {
      hide Assured, Due;
      HashedGrows(log, e);
      if Assured(p, state, peerCert, log) && Due(log, e) {
        AssuredGrows(p, state, peerCert, log, e);
      }
    }

    /** ssl3_add_change_cipher_spec and tls1_change_cipher_state. */
    method AddChangeCipherSpec()
      modifies this`outbox, this`writeKeys, this`log
      ensures outbox == old(outbox) + [Ccs] && writeKeys && log == old(log) + [Said(Ccs)]
      ensures old(Safe()) ==> Safe()
    {
      hide Assured;
      outbox := outbox + [Ccs];
      writeKeys := true;
      Logged(Said(Ccs));
      log := log + [Said(Ccs)];
      assert transcript + [] == transcript;
    }

    /** ssl_hash_message and next_message, and on to another state. */
    method Hear(next: State, to: Wait)
      requires inbox != [] && !Holds(next) && (Safe() ==> Assured(p, next, peerCert, log + [Heard(inbox[0])]))
      modifies this`state, this`wait, this`inbox, this`transcript, this`log
      ensures Took(next, to) && (old(Safe()) ==> Safe())
    {
      hide Assured, Hashed;
      HashedGrows(log, Heard(inbox[0]));
      transcript := transcript + [inbox[0]];
      log := log + [Heard(inbox[0])];
      inbox := inbox[1..];
      state, wait := next, to;
    }

    lemma HearingIsSafe(next: State)
      requires inbox != [] && Due(log, Heard(inbox[0])) && NoMore(p, state, next)
      ensures Safe() ==> Assured(p, next, peerCert, log + [Heard(inbox[0])])
    {
      hide Assured, Due, NoMore, Hashed;
      if Safe() {
        AssuredGrows(p, state, peerCert, log, Heard(inbox[0]));
        AssuredGoesOn(p, state, next, peerCert, log + [Heard(inbox[0])]);
      }
    }

    // ---- The five ways a step ends ----

    /** Nothing to read yet. */
    method Block(a: Answer)
      requires wait == Ok && state != ProcessChangeCipherSpec && inbox == [] && (Valid() ==> Owed(p, state))
      modifies this`wait
      ensures Waited(ReadMessage) && Stepped(a)
    {
      hide PlaceOf, Assured, Hashed, Moves;
      ghost var before := View();
      wait := ReadMessage;
      if old(Valid()) {
        MovesByBlocking(p, Server, before);
      }
    }

    /** A lookup is not finished. */
    method Retry(a: Answer)
      requires wait == Ok && state != ProcessChangeCipherSpec && a.outcome != Succeeded
      modifies this`wait
      ensures Waited(Again) && Stepped(a)
    {
      hide PlaceOf, Assured, Hashed, Moves;
      wait := Again;
      if old(Valid()) {
        MovesByRetrying(p, Server, View());
      }
    }

    method Fail(a: Answer)
      requires wait == Ok && !OnScript(a)
      modifies this`wait
      ensures Waited(Error) && Stepped(a)
    {
      hide PlaceOf, Assured, Hashed, Moves;
      wait := Error;
    }

    method GoTo(next: State, a: Answer)
      requires wait == Ok && state != ProcessChangeCipherSpec && next != ProcessChangeCipherSpec && Lowers(p, state, next)
      requires (Safe() ==> Holding(next, inbox)) && (NoMore(p, state, next) || (Safe() ==> Assured(p, next, peerCert, log)))
      requires OnScript(a) ==> (FullOnly(next) ==> !p.resumed) && exists e :: Leads(p, state, next, false, e)
      modifies this`state
      ensures Went(next) && Stepped(a)
    {
      hide PlaceOf, Assured, Hashed, Moves, FullOnly, NoMore, Welcome, Compatible;
      ghost var before := View();
      if Safe() && NoMore(p, state, next) {
        AssuredGoesOn(p, state, next, peerCert, log);
      }
      state := next;
      if old(OnScript(a)) {
        MovesSilently(p, Server, before, View());
      }
    }

    /** get_message has found a message: hash it, and on. */
    method TakeMessage(next: State, a: Answer)
      requires wait == Ok && state != ProcessChangeCipherSpec && next != ProcessChangeCipherSpec && inbox != [] && Lowers(p, state, next) && !Holds(next)
      requires (Due(log, Heard(inbox[0])) && NoMore(p, state, next)) || (Safe() ==> Assured(p, next, peerCert, log + [Heard(inbox[0])]))
      requires OnScript(a) ==> (FullOnly(next) ==> !p.resumed) && Leads(p, state, next, true, Event(Client, KindOf(inbox[0])))
      modifies this`state, this`wait, this`inbox, this`transcript, this`log
      ensures Took(next, Ok) && Stepped(a)
    {
      hide PlaceOf, Assured, Hashed, Moves, FullOnly, NoMore, Welcome, Compatible, Due, Leads, Safe, Holds;
      ghost var before := View();
      if Due(log, Heard(inbox[0])) && NoMore(p, state, next) {
        HearingIsSafe(next);
      }
      Hear(next, Ok);
      if old(OnScript(a)) {
        Taking(old(state), before);
      }
    }

    lemma Taking(s: State, before: View)
      requires Compatible(p) && before.rest == PlaceOf(p, s).rest && before.rank == PlaceOf(p, s).rank
      requires Lowers(p, s, state) && (FullOnly(state) ==> !p.resumed) && wait == Ok && state != ProcessChangeCipherSpec
      requires before.inbox != [] && Welcome(p, Server, before) && Placed(Server, before) && before.wait == Ok
      requires Leads(p, s, state, true, Event(Client, KindOf(before.inbox[0])))
      requires inbox == before.inbox[1..] && transcript == before.transcript + [before.inbox[0]] && outbox == before.outbox
      requires peerCert == PlaceOf(p, s).shown
      requires readKeys == before.reading == PlaceOf(p, s).opens && writeKeys == before.writing == PlaceOf(p, s).seals
      ensures Valid() && Moves(p, Server, before, View())
    {
      hide PlaceOf, Moves, FullOnly, Compatible, Genuine;
      MovesByTaking(p, Server, before, View(), Event(Client, KindOf(before.inbox[0])));
    }

    /** A flight of one message, perhaps to be continued. */
    method SendMessage(m: Msg, next: State, to: Wait, a: Answer)
      requires wait == Ok && state != ProcessChangeCipherSpec && next != ProcessChangeCipherSpec && Lowers(p, state, next)
      requires NoMore(p, state, next) && !Holds(next) && (to == Flush || (to == Ok && NextIsServers(p, next)))
      requires OnScript(a) ==>
        && (FullOnly(next) ==> !p.resumed) && PlaceOf(p, next).rank > 0
        && Leads(p, state, next, true, Event(Server, KindOf(m))) && Genuine(p, Server, m, transcript)
      modifies this`state, this`wait, this`outbox, this`transcript, this`log
      ensures Sent([Hs(m, writeKeys)], next, to) && Stepped(a)
    {
      hide PlaceOf, Assured, Hashed, Moves, FullOnly, NoMore, Compatible, Genuine, Messages, SaidAll, Holds, Leads, NextIsServers, Safe;
      ghost var before := View();
      Emit(m, next, to);
      if old(OnScript(a)) {
        Sending(m, old(state), before);
      }
    }

    method Emit(m: Msg, next: State, to: Wait)
      requires NoMore(p, state, next) && !Holds(next)
      modifies this`state, this`wait, this`outbox, this`transcript, this`log
      ensures Sent([Hs(m, writeKeys)], next, to) && transcript == old(transcript) + [m] && (old(Safe()) ==> Safe())
    {
      hide Safe, NoMore, Messages, SaidAll, Holds, KindOf;
      AddMessage(m);
      Leave(next, to);
      OneSaid<State>(Hs(m, writeKeys));
    }

    lemma Sending(m: Msg, s: State, before: View)
      requires Compatible(p) && before.rest == PlaceOf(p, s).rest && before.rank == PlaceOf(p, s).rank
      requires Lowers(p, s, state) && PlaceOf(p, state).rank > 0 && (FullOnly(state) ==> !p.resumed)
      requires wait == Flush || (wait == Ok && NextIsServers(p, state))
      requires Leads(p, s, state, true, Event(Server, KindOf(m))) && Genuine(p, Server, m, before.transcript)
      requires state != ProcessChangeCipherSpec && outbox == before.outbox + [Hs(m, writeKeys)] && transcript == before.transcript + [m]
      requires inbox == before.inbox && peerCert == PlaceOf(p, s).shown
      requires readKeys == before.reading == PlaceOf(p, s).opens && writeKeys == before.writing == PlaceOf(p, s).seals
      ensures Valid() && Moves(p, Server, before, View())
    {
      hide PlaceOf, Moves, FullOnly, Compatible, Genuine;
      MovesBySendingOne(p, Server, before, View(), Hs(m, writeKeys));
    }
    // ---- Flights of several messages ----

    twostate predicate Added(items: seq<Item>)
      reads this
    {
      outbox == old(outbox) + items && transcript == old(transcript) + Messages(items) && log == old(log) + SaidAll(items)
    }

    method AddCertificates(a: Answer)
      modifies this`outbox, this`transcript, this`log
      ensures Added(CertificateItems(p, a, writeKeys)) && (old(Safe()) ==> Safe())
    {
      hide Messages, SaidAll, Safe;
      ghost var items: seq<Item> := [];
      NothingSaid(log);
      NothingToAdd(View());
      if p.certAuth {
        Extended(items, Hs(Plain(Certificate, [1] + a.data), writeKeys), outbox, transcript, log);
        AddMessage(Plain(Certificate, [1] + a.data));
        items := items + [Hs(Plain(Certificate, [1] + a.data), writeKeys)];
        if p.status {
          Extended(items, Hs(Plain(CertificateStatus, a.data), writeKeys), old(outbox), old(transcript), old(log));
          AddMessage(Plain(CertificateStatus, a.data));
          items := items + [Hs(Plain(CertificateStatus, a.data), writeKeys)];
        }
      }
      assert items == CertificateItems(p, a, writeKeys);
    }

    method AddHelloDone(a: Answer)
      modifies this`outbox, this`transcript, this`log
      ensures Added(HelloDoneItems(p, a, writeKeys)) && (old(Safe()) ==> Safe())
    {
      hide Messages, SaidAll, Safe;
      ghost var items: seq<Item> := [];
      NothingSaid(log);
      NothingToAdd(View());
      if p.certRequest {
        Extended(items, Hs(Plain(CertificateRequest, a.data), writeKeys), outbox, transcript, log);
        AddMessage(Plain(CertificateRequest, a.data));
        items := items + [Hs(Plain(CertificateRequest, a.data), writeKeys)];
      }
      Extended(items, Hs(Plain(ServerHelloDone, []), writeKeys), old(outbox), old(transcript), old(log));
      AddMessage(Plain(ServerHelloDone, []));
      items := items + [Hs(Plain(ServerHelloDone, []), writeKeys)];
      assert items == HelloDoneItems(p, a, writeKeys);
    }

    method AddTicket(a: Answer)
      modifies this`outbox, this`transcript, this`writeKeys, this`log
      ensures Added(TicketItems(p, a, old(writeKeys))) && writeKeys && (old(Safe()) ==> Safe())
    {
      hide Messages, SaidAll, Safe;
      ghost var items: seq<Item>, sealed := [], writeKeys;
      NothingSaid(log);
      NothingToAdd(View());
      if p.ticket {
        Extended(items, Hs(Plain(NewSessionTicket, a.data), sealed), outbox, transcript, log);
        AddMessage(Plain(NewSessionTicket, a.data));
        items := items + [Hs(Plain(NewSessionTicket, a.data), sealed)];
      }
      Extended(items, Ccs, old(outbox), old(transcript), old(log));
      AddChangeCipherSpec();
      items := items + [Ccs];
      assert items == TicketItems(p, a, sealed);
    }

    method AddFlight(a: Answer)
      modifies this`outbox, this`transcript, this`writeKeys, this`log
      ensures Added(FinishedFlight(p, a, old(writeKeys), old(transcript))) && writeKeys && (old(Safe()) ==> Safe())
    {
      hide Messages, SaidAll, TicketItems, Safe;
      ghost var sealed := writeKeys;
      AddTicket(a);
      Extended(TicketItems(p, a, sealed), Hs(Fin(Server, transcript), true), old(outbox), old(transcript), old(log));
      AddMessage(Fin(Server, transcript));
    }

    /** The flight is complete: on to the next state. */
    method Leave(next: State, to: Wait)
      requires NoMore(p, state, next) && !Holds(next)
      modifies this`state, this`wait
      ensures state == next && wait == to && (old(Safe()) ==> Safe())
    {
      hide Assured, Hashed, NoMore, Holds;
      if Safe() {
        AssuredGoesOn(p, state, next, peerCert, log);
      }
      state, wait := next, to;
    }

    /** A flight of several messages is a move of the script. */
    lemma SendingAll(items: seq<Item>, s: State, before: View)
      requires Compatible(p) && before.rest == PlaceOf(p, s).rest && before.rank == PlaceOf(p, s).rank
      requires Lowers(p, s, state) && PlaceOf(p, state).rank > 0 && (FullOnly(state) ==> !p.resumed) && state != ProcessChangeCipherSpec
      requires wait == Flush || (wait == Ok && NextIsServers(p, state))
      requires Extends(before, View().(wait := before.wait, rank := before.rank), items, writeKeys)
      requires Sends(p, Server, before, View().(wait := before.wait, rank := before.rank))
      requires var b := PlaceOf(p, state); peerCert == b.shown && readKeys == b.opens && writeKeys == b.seals
      ensures Valid() && Moves(p, Server, before, View())
    {
      hide PlaceOf, Moves, Sends, FullOnly, Compatible, Messages;
      SameSends(p, Server, before, View().(wait := before.wait, rank := before.rank), View());
      MovesBySending(p, Server, before, View());
    }

    method EmitCertificates(a: Answer)
      requires state == SendServerCertificate
      modifies this`state, this`wait, this`outbox, this`transcript, this`log
      ensures Sent(CertificateItems(p, a, writeKeys), SendServerKeyExchange, Ok) && (old(Safe()) ==> Safe())
    {
      hide Safe, Messages, SaidAll, CertificateItems;
      AddCertificates(a);
      Leave(SendServerKeyExchange, Ok);
    }

    method EmitHelloDone(a: Answer)
      requires state == SendServerHelloDone
      modifies this`state, this`wait, this`outbox, this`transcript, this`log
      ensures Sent(HelloDoneItems(p, a, writeKeys), ReadClientCertificate, Flush) && (old(Safe()) ==> Safe())
    {
      hide Safe, Messages, SaidAll, HelloDoneItems;
      AddHelloDone(a);
      Leave(ReadClientCertificate, Flush);
    }

    method EmitFlight(a: Answer)
      requires state == SendServerFinished
      modifies this`state, this`wait, this`outbox, this`transcript, this`writeKeys, this`log
      ensures Sent(FinishedFlight(p, a, old(writeKeys), old(transcript)), if p.resumed then AwaitChangeCipherSpec else FinishHandshake, Flush)
      ensures writeKeys && (old(Safe()) ==> Safe())
    {
      hide Safe, Messages, SaidAll, FinishedFlight;
      AddFlight(a);
      Leave(if p.resumed then AwaitChangeCipherSpec else FinishHandshake, Flush);
    }

    // ---- The steps ----

    method StartAcceptStep(a: Answer)
      requires Ready(StartAccept, a)
      modifies this`state
      ensures Went(ReadClientHello) && Stepped(a)
    {
      hide PlaceOf, Assured, Leads, Lowers, Stepped;
      StartPlaces(p);
      GoTo(ReadClientHello, a);
    }

    /** The early callback may retry; the message stays for the next two states. */
    method ReadClientHelloStep(a: Answer)
      requires Ready(ReadClientHello, a)
      modifies this`state, this`wait
      ensures Stepped(a)
      ensures if old(inbox) == [] then Waited(ReadMessage)
        else if KindOf(old(inbox)[0]) != ClientHello || a.outcome == Failed then Waited(Error)
        else if a.outcome == Pending then Waited(Again) else Went(SelectCertificate)
    {
      hide PlaceOf, Assured, Leads, Lowers, Hashed, Genuine, Stepped;
      StartPlaces(p);
      if inbox == [] {
        Block(a);
      } else if KindOf(inbox[0]) != ClientHello || a.outcome == Failed {
        Fail(a);
      } else if a.outcome == Pending {
        Retry(a);
      } else {
        GoTo(SelectCertificate, a);
      }
    }

    /** The certificate callback may retry as well. */
    method SelectCertificateStep(a: Answer)
      requires Ready(SelectCertificate, a)
      modifies this`state, this`wait
      ensures Stepped(a)
      ensures if old(inbox) == [] then Waited(ReadMessage)
        else if a.outcome != Succeeded then Waited(if a.outcome == Failed then Error else Again)
        else Went(SelectParameters)
    {
      hide PlaceOf, Assured, Leads, Lowers, Hashed, Genuine, Stepped;
      StartPlaces(p);
      if inbox == [] {
        Block(a);
      } else if a.outcome == Failed {
        Fail(a);
      } else if a.outcome == Pending {
        Retry(a);
      } else {
        GoTo(SelectParameters, a);
      }
    }

    /** The session lookup may retry; only then is the ClientHello hashed, once. */
    method SelectParametersStep(a: Answer)
      requires Ready(SelectParameters, a)
      modifies this`state, this`wait, this`inbox, this`transcript, this`log
      ensures Stepped(a)
      ensures if old(inbox) == [] then Waited(ReadMessage)
        else if a.outcome != Succeeded then Waited(if a.outcome == Failed then Error else Again)
        else Took(SendServerHello, Ok)
    {
      hide PlaceOf, Assured, Leads, Lowers, Hashed, Genuine, Messages, Stepped;
      StartPlaces(p);
      HelloTaken(p);
      if inbox == [] {
        Block(a);
      } else if a.outcome == Failed {
        Fail(a);
      } else if a.outcome == Pending {
        Retry(a);
      } else {
        if Safe() {
          HearingIsSafe(SendServerHello);
        }
        TakeMessage(SendServerHello, a);
      }
    }

    /** The ServerHello, and the choice of path. */
    method SendServerHelloStep(a: Answer)
      requires Ready(SendServerHello, a)
      modifies this`state, this`wait, this`outbox, this`transcript, this`log
      ensures Stepped(a)
      ensures Sent([Hs(Plain(ServerHello, a.data), writeKeys)], if p.resumed then SendServerFinished else SendServerCertificate, Ok)
    {
      hide PlaceOf, Assured, Leads, Lowers, Hashed, Genuine, Messages, SaidAll, Stepped;
      HelloPlaces(p);
      PlainIsGenuine(p, Server, ServerHello, a.data, transcript);
      if p.resumed {
        SendMessage(Plain(ServerHello, a.data), SendServerFinished, Ok, a);
      } else {
        SendMessage(Plain(ServerHello, a.data), SendServerCertificate, Ok, a);
      }
    }

    /** Certificate and CertificateStatus, in a certificate cipher. */
    method SendServerCertificateStep(a: Answer)
      requires Ready(SendServerCertificate, a)
      modifies this`state, this`wait, this`outbox, this`transcript, this`log
      ensures Sent(CertificateItems(p, a, writeKeys), SendServerKeyExchange, Ok) && Stepped(a)
    {
      hide PlaceOf, Moves, Sends, Assured, Hashed, Messages, SaidAll, CertificateItems, Welcome, Safe, NextIsServers;
      ghost var before := View();
      CertificatesPart(p);
      EmitCertificates(a);
      if old(OnScript(a)) {
        CertificatesSend(p, a, before, View().(wait := before.wait, rank := before.rank));
        SendingAll(CertificateItems(p, a, before.writing), SendServerCertificate, before);
      }
    }

    /** Sent exactly when there are parameters to send; in a certificate cipher they are signed first. */
    method SendServerKeyExchangeStep(a: Answer)
      requires Ready(SendServerKeyExchange, a)
      modifies this`state, this`wait, this`outbox, this`transcript, this`log
      ensures Stepped(a)
      ensures if !p.keyExchange then Went(SendServerHelloDone)
        else if p.certAuth && a.outcome != Succeeded then Waited(if a.outcome == Failed then Error else Again)
        else Sent([Hs(Plain(ServerKeyExchange, a.data), writeKeys)], SendServerHelloDone, Ok)
    {
      hide PlaceOf, Assured, Leads, Lowers, Hashed, Genuine, Messages, SaidAll, Stepped;
      KeyExchangePart(p);
      if !p.keyExchange {
        GoTo(SendServerHelloDone, a);
      } else if p.certAuth && a.outcome == Failed {
        Fail(a);
      } else if p.certAuth && a.outcome == Pending {
        Retry(a);
      } else {
        PlainIsGenuine(p, Server, ServerKeyExchange, a.data, transcript);
        SendMessage(Plain(ServerKeyExchange, a.data), SendServerHelloDone, Ok, a);
      }
    }

    /** CertificateRequest if wanted, and ServerHelloDone. */
    method SendServerHelloDoneStep(a: Answer)
      requires Ready(SendServerHelloDone, a)
      modifies this`state, this`wait, this`outbox, this`transcript, this`log
      ensures Sent(HelloDoneItems(p, a, writeKeys), ReadClientCertificate, Flush) && Stepped(a)
    {
      hide PlaceOf, Moves, Sends, Assured, Hashed, Messages, SaidAll, HelloDoneItems, Welcome, Safe;
      ghost var before := View();
      HelloDonePart(p);
      EmitHelloDone(a);
      if old(OnScript(a)) {
        HelloDoneSends(p, a, before, View().(wait := before.wait, rank := before.rank));
        SendingAll(HelloDoneItems(p, a, before.writing), SendServerHelloDone, before);
      }
    }

    /** A certificate, perhaps empty, is read exactly when asked for; a required one may not be empty. */
    method ReadClientCertificateStep(a: Answer)
      requires Ready(ReadClientCertificate, a)
      modifies this`state, this`wait, this`inbox, this`transcript, this`peerCert, this`log
      ensures Stepped(a)
      ensures if !p.certRequest then Went(VerifyClientCertificate)
        else if old(inbox) == [] then Waited(ReadMessage)
        else if KindOf(old(inbox)[0]) != Certificate || (old(inbox)[0].data == [] && p.clientCertRequired) then Waited(Error)
        else Took(VerifyClientCertificate, Ok) && peerCert == (old(inbox)[0].data != [])
      ensures log == old(log) ==> peerCert == old(peerCert)
    {
      hide PlaceOf, Assured, Leads, Lowers, Hashed, Messages, Stepped;
      ClientCertificatePlaces(p);
      if !p.certRequest {
        SkipCertificate(a);
      } else if inbox == [] {
        Block(a);
      } else if KindOf(inbox[0]) != Certificate || (inbox[0].data == [] && p.clientCertRequired) {
        Fail(a);
      } else {
        TakeCertificate(a);
      }
    }

    method SkipCertificate(a: Answer)
      requires Ready(ReadClientCertificate, a) && !p.certRequest
      modifies this`state
      ensures Went(VerifyClientCertificate) && Stepped(a)
    {
      hide PlaceOf, Assured, Lowers, Hashed, Stepped;
      ClientCertificatePlaces(p);
      assert Leads(p, ReadClientCertificate, VerifyClientCertificate, false, Event(Client, Certificate));
      GoTo(VerifyClientCertificate, a);
    }

    method TakeCertificate(a: Answer)
      requires Ready(ReadClientCertificate, a) && p.certRequest && inbox != [] && KindOf(inbox[0]) == Certificate
      modifies this`state, this`wait, this`inbox, this`transcript, this`peerCert, this`log
      ensures Took(VerifyClientCertificate, Ok) && peerCert == (old(inbox)[0].data != []) && Stepped(a)
    {
      hide PlaceOf, Assured, Hashed, Moves, Messages, Safe;
      ClientCertificatePlaces(p);
      ghost var before := View();
      HearCertificate();
      if old(OnScript(a)) {
        MovesByTaking(p, Server, before, View(), Event(Client, Certificate));
      }
    }

    method HearCertificate()
      requires state == ReadClientCertificate && inbox != [] && KindOf(inbox[0]) == Certificate
      modifies this`state, this`wait, this`inbox, this`transcript, this`peerCert, this`log
      ensures Took(VerifyClientCertificate, Ok) && peerCert == (old(inbox)[0].data != []) && (old(Safe()) ==> Safe())
    {
      hide Assured, Hashed;
      HashedGrows(log, Heard(inbox[0]));
      if Safe() {
        CertificateCounts(p, peerCert, log, inbox[0]);
      }
      peerCert := inbox[0].data != [];
      transcript := transcript + [inbox[0]];
      log := log + [Heard(inbox[0])];
      inbox := inbox[1..];
      state, wait := VerifyClientCertificate, Ok;
    }

    /** A certificate that was shown is verified before the handshake goes on. */
    method VerifyClientCertificateStep(a: Answer)
      requires Ready(VerifyClientCertificate, a)
      modifies this`state, this`wait
      ensures Stepped(a)
      ensures if !peerCert || a.outcome == Succeeded then Went(ReadClientKeyExchange)
        else Waited(if a.outcome == Failed then Error else Again)
    {
      hide PlaceOf, Assured, Leads, Lowers, Hashed, Stepped;
      KeyExchangePlaces(p);
      if peerCert && a.outcome == Failed {
        Fail(a);
      } else if peerCert && a.outcome == Pending {
        Retry(a);
      } else {
        if Safe() {
          VerificationCounts(p, peerCert, log, a);
        }
        GoTo(ReadClientKeyExchange, a);
      }
    }

    /** The ClientKeyExchange stays unread while the private key operation retries. */
    method ReadClientKeyExchangeStep(a: Answer)
      requires Ready(ReadClientKeyExchange, a)
      modifies this`state, this`wait, this`inbox, this`transcript, this`log
      ensures Stepped(a)
      ensures if old(inbox) == [] then Waited(ReadMessage)
        else if KindOf(old(inbox)[0]) != ClientKeyExchange || a.outcome == Failed then Waited(Error)
        else if a.outcome == Pending then Waited(Again) else Took(ReadClientCertificateVerify, Ok)
    {
      hide PlaceOf, Assured, Leads, Lowers, Hashed, Genuine, Messages, Stepped;
      KeyExchangePlaces(p);
      if inbox == [] {
        Block(a);
      } else if KindOf(inbox[0]) != ClientKeyExchange || a.outcome == Failed {
        Fail(a);
      } else if a.outcome == Pending {
        Retry(a);
      } else {
        TakeMessage(ReadClientCertificateVerify, a);
      }
    }

    /** A CertificateVerify, with a valid signature, exactly from a client that showed a certificate. */
    method ReadClientCertificateVerifyStep(a: Answer)
      requires Ready(ReadClientCertificateVerify, a)
      modifies this`state, this`wait, this`inbox, this`transcript, this`log
      ensures Stepped(a)
      ensures if !peerCert then Went(AwaitChangeCipherSpec)
        else if old(inbox) == [] then Waited(ReadMessage)
        else if KindOf(old(inbox)[0]) != CertificateVerify || !a.valid then Waited(Error)
        else Took(AwaitChangeCipherSpec, Ok)
    {
      hide PlaceOf, Assured, Leads, Lowers, Hashed, Genuine, Messages, Stepped;
      ProofPlaces(p);
      if !peerCert {
        if Safe() {
          NoProofNeeded(p, log);
        }
        GoTo(AwaitChangeCipherSpec, a);
      } else if inbox == [] {
        Block(a);
      } else if KindOf(inbox[0]) != CertificateVerify || !a.valid {
        Fail(a);
      } else {
        if Safe() {
          ProofCounts(p, peerCert, log, inbox[0]);
        }
        TakeMessage(AwaitChangeCipherSpec, a);
      }
    }

    method AwaitChangeCipherSpecStep(a: Answer)
      requires Ready(AwaitChangeCipherSpec, a)
      modifies this`state, this`wait
      ensures state == ProcessChangeCipherSpec && wait == ReadChangeCipherSpec && Same() && Stepped(a)
    {
      hide PlaceOf, Assured, Hashed, Moves, FromClientCcs, FromNextProto, Compatible, Safe;
      ghost var before := View();
      ChangePart(p);
      Leave(ProcessChangeCipherSpec, ReadChangeCipherSpec);
      if old(OnScript(a)) {
        MovesSilently(p, Server, before, View());
      }
    }

    /** tls1_change_cipher_state: from here on the client's records open under the new keys. */
    method ProcessChangeCipherSpecStep(a: Answer)
      requires Ready(ProcessChangeCipherSpec, a)
      modifies this`state, this`readKeys, this`log
      ensures Stepped(a)
      ensures state == ReadNextProto && readKeys && wait == Ok && inbox == old(inbox) && outbox == old(outbox)
      ensures transcript == old(transcript) && log == old(log) + [KeysChanged]
    {
      hide PlaceOf, Assured, Hashed, Moves, FromClientCcs, FromNextProto, Compatible, Safe;
      ghost var before := View();
      ChangePart(p);
      ChangeReadKeys();
      if old(OnScript(a)) {
        MovesSilently(p, Server, before, View());
      }
    }

    method ChangeReadKeys()
      requires state == ProcessChangeCipherSpec
      modifies this`state, this`readKeys, this`log
      ensures state == ReadNextProto && readKeys && log == old(log) + [KeysChanged] && (old(Safe()) ==> Safe())
    {
      hide Assured, Hashed;
      HashedGrows(log, KeysChanged);
      if Safe() {
        ChangeCounts(p, peerCert, log);
      }
      readKeys := true;
      log := log + [KeysChanged];
      state := ReadNextProto;
      assert transcript + [] == transcript;
    }

    method ReadNextProtoStep(a: Answer)
      requires Ready(ReadNextProto, a)
      modifies this`state, this`wait, this`inbox, this`transcript, this`log
      ensures Stepped(a)
      ensures if !p.npn then Went(ReadChannelId)
        else if old(inbox) == [] then Waited(ReadMessage)
        else if KindOf(old(inbox)[0]) != NextProto then Waited(Error)
        else Took(ReadChannelId, Ok)
    {
      hide PlaceOf, Assured, Leads, Lowers, Hashed, Genuine, Messages, Stepped;
      NextProtoPlaces(p);
      if !p.npn {
        GoTo(ReadChannelId, a);
      } else if inbox == [] {
        Block(a);
      } else if KindOf(inbox[0]) != NextProto {
        Fail(a);
      } else {
        TakeMessage(ReadChannelId, a);
      }
    }

    /** A ChannelID, with a valid signature, exactly when negotiated. */
    method ReadChannelIdStep(a: Answer)
      requires Ready(ReadChannelId, a)
      modifies this`state, this`wait, this`inbox, this`transcript, this`log
      ensures Stepped(a)
      ensures if !p.channelId then Went(ReadClientFinished)
        else if old(inbox) == [] then Waited(ReadMessage)
        else if KindOf(old(inbox)[0]) != ChannelId || !a.valid then Waited(Error)
        else Took(ReadClientFinished, Ok)
    {
      hide PlaceOf, Assured, Leads, Lowers, Hashed, Genuine, Messages, Stepped;
      ChannelIdPlaces(p);
      if !p.channelId {
        GoTo(ReadClientFinished, a);
      } else if inbox == [] {
        Block(a);
      } else if KindOf(inbox[0]) != ChannelId || !a.valid {
        Fail(a);
      } else {
        TakeMessage(ReadClientFinished, a);
      }
    }

    /** ssl_get_finished: the MAC must cover exactly the server's own transcript. */
    method ReadClientFinishedStep(a: Answer)
      requires Ready(ReadClientFinished, a)
      modifies this`state, this`wait, this`inbox, this`transcript, this`log
      ensures Stepped(a)
      ensures if old(inbox) == [] then Waited(ReadMessage)
        else if old(inbox)[0] != Fin(Client, old(transcript)) then Waited(Error)
        else Took(if p.resumed then FinishHandshake else SendServerFinished, Ok)
    {
      hide PlaceOf, Assured, Leads, Lowers, Hashed, Messages, Stepped;
      FinishedPart(p);
      if inbox == [] {
        Block(a);
      } else if inbox[0] != Fin(Client, transcript) {
        Fail(a);
      } else {
        TakeFinished(a);
      }
    }

    lemma FinishingIsSafe()
      requires state == ReadClientFinished && inbox != [] && inbox[0] == Fin(Client, transcript)
      ensures Safe() ==> Assured(p, if p.resumed then FinishHandshake else SendServerFinished, peerCert, log + [Heard(inbox[0])])
    {
      hide Assured, Hashed;
      if Safe() {
        FinishedCounts(p, peerCert, log);
      }
    }

    method TakeFinished(a: Answer)
      requires Ready(ReadClientFinished, a) && inbox != [] && inbox[0] == Fin(Client, transcript)
      modifies this`state, this`wait, this`inbox, this`transcript, this`log
      ensures Took(if p.resumed then FinishHandshake else SendServerFinished, Ok) && Stepped(a)
    {
      hide PlaceOf, Assured, Hashed, Moves, Compatible, Safe, Welcome, Leads, Lowers, Genuine;
      FinishedPart(p);
      FinishingIsSafe();
      if p.resumed {
        TakeMessage(FinishHandshake, a);
      } else {
        TakeMessage(SendServerFinished, a);
      }
    }

    /** NewSessionTicket, ChangeCipherSpec and Finished; a resumed handshake then waits for the client's. */
    method SendServerFinishedStep(a: Answer)
      requires Ready(SendServerFinished, a)
      modifies this`state, this`wait, this`outbox, this`transcript, this`writeKeys, this`log
      ensures Sent(FinishedFlight(p, a, old(writeKeys), old(transcript)), if p.resumed then AwaitChangeCipherSpec else FinishHandshake, Flush)
      ensures writeKeys && Stepped(a)
    {
      hide PlaceOf, Moves, Sends, Assured, Hashed, Messages, SaidAll, FinishedFlight, Welcome, Safe;
      ghost var before := View();
      FlightPart(p);
      EmitFlight(a);
      if old(OnScript(a)) {
        FinishedFlightSends(p, a, before, View().(wait := before.wait, rank := before.rank));
        SendingAll(FinishedFlight(p, a, false, before.transcript), SendServerFinished, before);
      }
    }

    method FinishHandshakeStep(a: Answer)
      requires Ready(FinishHandshake, a)
      modifies this`state
      ensures Went(Done) && Stepped(a)
    {
      hide PlaceOf, Assured, Leads, Lowers, Stepped;
      EndPlaces(p);
      GoTo(Done, a);
    }

    // ---- What ssl_run_handshake resolves between the steps ----

    /** flush_flight, when the transport takes the first `n` items. */
    method Push(n: nat) returns (sent: seq<Item>)
      requires wait == Flush && n <= |outbox|
      modifies this`outbox, this`wait
      ensures sent == old(outbox)[..n]
      ensures View() == old(View()).(outbox := old(outbox)[n..], wait := if n == |old(outbox)| then Ok else Flush)
      ensures (old(Valid()) ==> Valid()) && (old(Safe()) ==> Safe())
    {
      hide PlaceOf, Assured, Hashed;
      sent := outbox[..n];
      wait := if n == |outbox| then Ok else Flush;
      outbox := outbox[n..];
    }

    /** ssl_open_handshake: the messages of one record, if they open under the current keys. */
    method Pull(items: seq<Item>)
      requires wait == ReadMessage && items != []
      modifies this`inbox, this`wait
      ensures old(Valid()) ==>
        if forall i | 0 <= i < |items| :: items[i].Hs? && items[i].sealed == old(View()).reading then
          View() == old(View()).(inbox := old(inbox) + Messages(items), wait := Ok) && Valid()
        else wait == Error
      ensures old(Safe()) ==> Safe()
    {
      hide PlaceOf, Messages, Assured, Hashed;
      if forall i | 0 <= i < |items| :: items[i].Hs? && items[i].sealed == readKeys {
        inbox := inbox + Messages(items);
        wait := Ok;
      } else {
        wait := Error;
      }
    }

    /** ssl_open_change_cipher_spec, with the check of set_read_state that no message is left unread. */
    method PullChange(item: Item)
      requires wait == ReadChangeCipherSpec
      modifies this`wait
      ensures old(Valid()) ==>
        if item.Ccs? && inbox == [] then
          View() == old(View()).(rest := old(View()).rest[1..], reading := true, wait := Ok) && Valid()
        else wait == Error
      ensures wait == (if item.Ccs? && inbox == [] then Ok else Error) && (old(Safe()) ==> Safe())
    {
      hide PlaceOf, Assured, Hashed;
      ChangePart(p);
      if item.Ccs? && inbox == [] {
        wait := Ok;
      } else {
        wait := Error;
      }
    }

    /** Back to the caller, and on: nothing changes. */
    method Resume()
      requires wait == Again
      modifies this`wait
      ensures wait == Ok && View() == old(View()) && (old(Valid()) ==> Valid()) && (old(Safe()) ==> Safe())
    {
      hide PlaceOf, Assured, Hashed;
      wait := Ok;
    }

    // ---- The driver ----

    ghost method NoteAnswer(a: Answer)
      modifies this`log
      ensures log == old(log) + [Answered(state, a)] && (old(Safe()) ==> Safe()) && (old(Followed()) ==> Followed())
    {
      hide Assured, Hashed, Script, ToCome;
      Logged(Answered(state, a));
      FlowGrows(Server, log, Answered(state, a));
      assert Flow(Server, log) + [] == Flow(Server, log);
      log := log + [Answered(state, a)];
      assert transcript + [] == transcript;
    }

    /** One step; the answer to it goes on record first. */
    method Advance(a: Answer)
      requires wait == Ok && state != Done
      modifies this
      ensures Kept(a) && OnlyDeeds(old(log) + [Answered(old(state), a)], log)
      ensures old(Safe()) && old(Followed()) ==> Followed()
    {
      hide Valid, View, OnScript, Moves, Did, Assured, Hashed, Follows;
      NoteAnswer(a);
      ghost var before := Now();
      TakeStep(a);
      if old(Safe()) && old(Followed()) {
        StepFollows(p, a, before, Now());
      }
    }

    method TakeStep(a: Answer)
      requires Ready(state, a) && state != Done
      modifies this
      ensures Stepped(a) && Did(p, a, old(Now()), Now())
    {
      hide Valid, View, Safe, OnScript, Moves, Stepped, CertificateItems, HelloDoneItems, FinishedFlight, SaidAll, Messages;
      match state
      case StartAccept => StartAcceptStep(a);
      case ReadClientHello => ReadClientHelloStep(a);
      case SelectCertificate => SelectCertificateStep(a);
      case SelectParameters => SelectParametersStep(a);
      case SendServerHello => SendServerHelloStep(a);
      case SendServerCertificate => SendServerCertificateStep(a);
      case SendServerKeyExchange => SendServerKeyExchangeStep(a);
      case SendServerHelloDone => SendServerHelloDoneStep(a);
      case ReadClientCertificate => ReadClientCertificateStep(a);
      case VerifyClientCertificate => VerifyClientCertificateStep(a);
      case ReadClientKeyExchange => ReadClientKeyExchangeStep(a);
      case ReadClientCertificateVerify => ReadClientCertificateVerifyStep(a);
      case AwaitChangeCipherSpec => AwaitChangeCipherSpecStep(a);
      case ProcessChangeCipherSpec => ProcessChangeCipherSpecStep(a);
      case ReadNextProto => ReadNextProtoStep(a);
      case ReadChannelId => ReadChannelIdStep(a);
      case ReadClientFinished => ReadClientFinishedStep(a);
      case SendServerFinished => SendServerFinishedStep(a);
      case FinishHandshake => FinishHandshakeStep(a);
    }

    /** ssl_server_handshake: steps until one waits or the handshake is done. */
    method Handshake(answers: nat -> Answer) returns (ghost trace: seq<View>)
      requires wait == Ok
      modifies this
      ensures IsTrace(old(View()), trace, View()) && (wait != Ok || state == Done)
      ensures (old(Safe()) ==> Safe()) && (old(Safe()) && old(Followed()) ==> Followed())
      ensures old(Valid()) && AllWelcome(p, Server, trace) && (forall i :: Favourable(answers(i))) ==> Valid() && AllMove(p, Server, trace)
    {
      hide Stepped, PlaceOf, Moves, Welcome, Placed, Safe, OnlyDeeds, Followed;
      trace := [View()];
      var i := 0;
      ghost var onScript := Valid() && forall i :: Favourable(answers(i));
      while wait == Ok && state != Done
        invariant IsTrace(old(View()), trace, View()) && (old(Safe()) ==> Safe()) && (old(Safe()) && old(Followed()) ==> Followed())
        invariant onScript && AllWelcome(p, Server, trace) ==> Valid() && AllMove(p, Server, trace)
        decreases wait == Ok, View().rank
      {
        Advance(answers(i));
        ghost var longer := trace + [View()];
        TraceGrows(p, Server, trace, View());
        trace := longer;
        i := i + 1;
      }
    }

    /** Whatever the caller answers, and whatever the network delivers. */
    method Obey(input: Input)
      requires Safe()
      modifies this
      ensures Safe() && (old(Followed()) ==> Followed())
      ensures if old(wait) in {Ok, Again} && old(state) != Done && input.Step?
        then OnlyDeeds(old(log) + [Answered(old(state), input.answer)], log) else log == old(log)
    {
      hide PlaceOf, Moves, Placed, Valid, View, Safe, OnlyDeeds, Messages, Follows;
      match input
      case Step(a) =>
        if wait == Again {
          Resume();
        }
        if wait == Ok && state != Done {
          Advance(a);
        }
      case Flushed(n) =>
        if wait == Flush {
          var _ := Push(if n <= |outbox| then n else |outbox|);
        }
      case Record(items) =>
        if wait == ReadMessage && items != [] {
          Pull(items);
        } else if wait == ReadChangeCipherSpec && items != [] {
          PullChange(items[0]);
        }
    }

    /** Any run against any peer, honest or not: if it ends in state_done, the client's Finished was
        verified after the read keys changed, over all that was sent and received up to there; the messages
        were those of the script; and a certificate that is required was shown. */
    method Run(inputs: seq<Input>)
      requires Safe()
      modifies this
      ensures Safe() && (state == Done ==> FinishedVerified(log, Client))
      ensures old(Followed()) && state == Done ==>
        && (!p.resumed && p.certRequest && p.clientCertRequired ==> HeardCertificate(log))
        && (OwnTerms(p) ==> Flow(Server, log) == Script(p.(clientCert := peerCert)) && Compatible(p.(clientCert := peerCert)))
    {
      hide Safe, OnlyDeeds, Followed, Script, Flow;
      for i := 0 to |inputs|
        invariant Safe() && (old(Followed()) ==> Followed())
      {
        Obey(inputs[i]);
      }
      if state == Done {
        DoneIsSafe();
        assert FinishedVerified(log, Client);
        if old(Followed()) {
          DoneFollowed();
        }
      }
    }
  }
}
