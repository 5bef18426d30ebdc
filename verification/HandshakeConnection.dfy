/** The two state machines connected: whatever the schedule, their turns are turns of the product in
    HandshakeProduct, and every fair schedule completes the handshake. */
module HandshakeConnection {
  import opened Common
  import opened HandshakeScript
  import opened HandshakeProduct
  import C = ClientHandshake
  import S = ServerHandshake

  /** One call of a side's ssl_run_handshake, one turn of its loop at a time: how much the transport
      takes, or how many messages the next record holds, and what the world answers to a step. */
  datatype Call = Call(w: Who, n: nat, answer: Answer)

  predicate IsReady(c: Call) {
    c.n > 0 && c.answer.outcome == Succeeded
  }

  /** The turns a schedule gives, whatever is done in them. */
  function Chances(schedule: seq<Call>): (turns: seq<Turn>)
    ensures |turns| == |schedule|
  {
    seq(|schedule|, i requires 0 <= i < |schedule| => Turn(schedule[i].w, IsReady(schedule[i]), None))
  }

  class Connection {
    const p: Params
    const client: C.ClientMachine
    const server: S.ServerMachine
    var up: seq<Item>
    var down: seq<Item>

    ghost function Now(): Product
      reads this, client, server
    {
      Product(client.View(), server.View(), up, down)
    }

    /** Both sides are where their script says, and nothing has been refused. */
    ghost predicate Valid()
      reads this, client, server
    {
      client.p == p && server.p == p && client.Valid() && server.Valid() && Reachable(p, Now())
    }

    constructor (p: Params)
      requires Compatible(p)
      ensures Valid() && fresh(client) && fresh(server) && this.p == p
      ensures client.state == C.StartConnect && server.state == S.StartAccept && client.Safe() && server.Safe()
      ensures Rank(Now()) == 3704
    {
      hide Script, C.PlaceOf, S.PlaceOf, Rank, Reachable, Compatible, C.ClientMachine.View, S.ServerMachine.View;
      hide C.ClientMachine.Valid, S.ServerMachine.Valid, C.ClientMachine.Safe, S.ServerMachine.Safe;
      this.p := p;
      client := new C.ClientMachine(p);
      server := new S.ServerMachine(p);
      up, down := [], [];
      new;
      Start(p, Now());
    }

    /** What has been done since `x` is this turn of the product. */
    ghost predicate Follows(x: Product, t: Turn)
      reads this, client, server
    {
      Valid() && Allowed(p, x, t) && Now() == Next(p, x, t)
    }

    method ClientRuns(ready: bool, answer: Answer) returns (ghost t: Turn)
      requires Valid() && client.wait == Ok && client.state != C.Done && Favourable(answer) && (ready ==> answer.outcome == Succeeded)
      modifies client
      ensures Follows(old(Now()), t) && t.w == Client && t.ready == ready
    {
      hide Reachable, Opens, OneRecord, Messages, C.PlaceOf, S.PlaceOf, Placed, Welcome, Moves;
      hide C.ClientMachine.Valid, S.ServerMachine.Valid, C.ClientMachine.Safe, S.ServerMachine.Safe;
      ghost var x := Now();
      ReachableMeans(p, x, Client);
      ClientRank(p, client.state);
      client.Advance(answer);
      t := Turn(Client, ready, Some(Run(client.View())));
      TurnIsReachable(p, x, t);
    }

    method ClientPushes(ready: bool, n: nat) returns (ghost t: Turn)
      requires Valid() && client.wait == Flush && n <= |client.outbox| && (ready ==> n > 0 || client.outbox == [])
      modifies this`up, client
      ensures Follows(old(Now()), t) && t.w == Client && t.ready == ready
    {
      hide Reachable, Opens, OneRecord, Messages, C.PlaceOf, S.PlaceOf, Placed, Welcome, Moves, Allowed, Next;
      hide C.ClientMachine.Valid, S.ServerMachine.Valid, C.ClientMachine.Safe, S.ServerMachine.Safe;
      ghost var x := Now();
      var sent := client.Push(n);
      up := up + sent;
      t := Turn(Client, ready, Some(Push(n)));
      PushTurn(p, x, Client, t, n);
    }

    method ClientPulls(ready: bool, n: nat) returns (ghost t: Turn)
      requires Valid() && client.wait == ReadMessage && down != []
      modifies this`down, client
      ensures Follows(old(Now()), t) && t.w == Client && t.ready == ready
    {
      hide Reachable, Opens, OneRecord, Messages, C.PlaceOf, S.PlaceOf, Placed, Welcome, Moves, Allowed, Next;
      hide C.ClientMachine.Valid, S.ServerMachine.Valid, C.ClientMachine.Safe, S.ServerMachine.Safe;
      ghost var x := Now();
      var k := RecordSize(down, n);
      t := Turn(Client, ready, Some(Pull(k)));
      PullTurn(p, x, Client, t, k);
      OpensMeans(down[..k], x.client.reading);
      client.Pull(down[..k]);
      down := down[k..];
    }

    method ClientPullsChange(ready: bool) returns (ghost t: Turn)
      requires Valid() && client.wait == ReadChangeCipherSpec && down != []
      modifies this`down, client
      ensures Follows(old(Now()), t) && t.w == Client && t.ready == ready
    {
      hide Reachable, Opens, OneRecord, Messages, C.PlaceOf, S.PlaceOf, Placed, Welcome, Moves, Allowed, Next;
      hide C.ClientMachine.Valid, S.ServerMachine.Valid, C.ClientMachine.Safe, S.ServerMachine.Safe;
      ghost var x := Now();
      t := Turn(Client, ready, Some(PullChangeCipherSpec));
      ChangeTurn(p, x, Client, t);
      client.PullChange(down[0]);
      down := down[1..];
    }

    /** Back from the caller: nothing has changed. */
    method ClientResumes()
      requires Valid() && client.wait == Again
      modifies client
      ensures Valid() && Now() == old(Now()) && client.wait == Ok && client.state == old(client.state)
    {
      hide Reachable, C.PlaceOf, S.PlaceOf, C.ClientMachine.Valid, S.ServerMachine.Valid, C.ClientMachine.Safe, S.ServerMachine.Safe;
      client.Resume();
    }

    lemma ClientIdles()
      requires Valid() && client.wait != Again && client.wait != Flush && (client.wait == Ok ==> client.state == C.Done)
      requires client.wait in {ReadMessage, ReadChangeCipherSpec} ==> down == []
      ensures !CanAct(Now(), Client)
    {
      hide Reachable, C.PlaceOf, S.PlaceOf, C.ClientMachine.Valid, S.ServerMachine.Valid, C.ClientMachine.Safe, S.ServerMachine.Safe;
      ClientRank(p, client.state);
    }

    /** One turn of the client's ssl_run_handshake. It is a turn of the product: idle only if there is
        nothing to do or to read, and not a stutter if the call is a ready one. */
    method ClientActs(n: nat, answer: Answer) returns (ghost t: Turn)
      requires Valid() && Favourable(answer)
      modifies this`up, this`down, client
      ensures Follows(old(Now()), t) && t.w == Client && t.ready == (n > 0 && answer.outcome == Succeeded)
    {
      hide Valid, Now, CanAct, Enabled, After, Stutters;
      var ready := n > 0 && answer.outcome == Succeeded;
      if client.wait == Again {
        ClientResumes();
      }
      if client.wait == Ok && client.state != C.Done {
        t := ClientRuns(ready, answer);
      } else if client.wait == Flush {
        t := ClientPushes(ready, if n <= |client.outbox| then n else |client.outbox|);
      } else if client.wait == ReadMessage && down != [] {
        t := ClientPulls(ready, n);
      } else if client.wait == ReadChangeCipherSpec && down != [] {
        t := ClientPullsChange(ready);
      } else {
        ClientIdles();
        t := Turn(Client, ready, None);
      }
    }

    method ServerRuns(ready: bool, answer: Answer) returns (ghost t: Turn)
      requires Valid() && server.wait == Ok && server.state != S.Done && Favourable(answer) && (ready ==> answer.outcome == Succeeded)
      modifies server
      ensures Follows(old(Now()), t) && t.w == Server && t.ready == ready
    {
      hide Reachable, Opens, OneRecord, Messages, C.PlaceOf, S.PlaceOf, Placed, Welcome, Moves;
      hide C.ClientMachine.Valid, S.ServerMachine.Valid, C.ClientMachine.Safe, S.ServerMachine.Safe;
      ghost var x := Now();
      ReachableMeans(p, x, Server);
      ServerRank(p, server.state);
      server.Advance(answer);
      t := Turn(Server, ready, Some(Run(server.View())));
      TurnIsReachable(p, x, t);
    }

    method ServerPushes(ready: bool, n: nat) returns (ghost t: Turn)
      requires Valid() && server.wait == Flush && n <= |server.outbox| && (ready ==> n > 0 || server.outbox == [])
      modifies this`down, server
      ensures Follows(old(Now()), t) && t.w == Server && t.ready == ready
    {
      hide Reachable, Opens, OneRecord, Messages, C.PlaceOf, S.PlaceOf, Placed, Welcome, Moves, Allowed, Next;
      hide C.ClientMachine.Valid, S.ServerMachine.Valid, C.ClientMachine.Safe, S.ServerMachine.Safe;
      ghost var x := Now();
      var sent := server.Push(n);
      down := down + sent;
      t := Turn(Server, ready, Some(Push(n)));
      PushTurn(p, x, Server, t, n);
    }

    method ServerPulls(ready: bool, n: nat) returns (ghost t: Turn)
      requires Valid() && server.wait == ReadMessage && up != []
      modifies this`up, server
      ensures Follows(old(Now()), t) && t.w == Server && t.ready == ready
    {
      hide Reachable, Opens, OneRecord, Messages, C.PlaceOf, S.PlaceOf, Placed, Welcome, Moves, Allowed, Next;
      hide C.ClientMachine.Valid, S.ServerMachine.Valid, C.ClientMachine.Safe, S.ServerMachine.Safe;
      ghost var x := Now();
      var k := RecordSize(up, n);
      t := Turn(Server, ready, Some(Pull(k)));
      PullTurn(p, x, Server, t, k);
      OpensMeans(up[..k], x.server.reading);
      server.Pull(up[..k]);
      up := up[k..];
    }

    method ServerPullsChange(ready: bool) returns (ghost t: Turn)
      requires Valid() && server.wait == ReadChangeCipherSpec && up != []
      modifies this`up, server
      ensures Follows(old(Now()), t) && t.w == Server && t.ready == ready
    {
      hide Reachable, Opens, OneRecord, Messages, C.PlaceOf, S.PlaceOf, Placed, Welcome, Moves, Allowed, Next;
      hide C.ClientMachine.Valid, S.ServerMachine.Valid, C.ClientMachine.Safe, S.ServerMachine.Safe;
      ghost var x := Now();
      t := Turn(Server, ready, Some(PullChangeCipherSpec));
      ChangeTurn(p, x, Server, t);
      server.PullChange(up[0]);
      up := up[1..];
    }

    /** Back from the caller: nothing has changed. */
    method ServerResumes()
      requires Valid() && server.wait == Again
      modifies server
      ensures Valid() && Now() == old(Now()) && server.wait == Ok && server.state == old(server.state)
    {
      hide Reachable, C.PlaceOf, S.PlaceOf, C.ClientMachine.Valid, S.ServerMachine.Valid, C.ClientMachine.Safe, S.ServerMachine.Safe;
      server.Resume();
    }

    lemma ServerIdles()
      requires Valid() && server.wait != Again && server.wait != Flush && (server.wait == Ok ==> server.state == S.Done)
      requires server.wait in {ReadMessage, ReadChangeCipherSpec} ==> up == []
      ensures !CanAct(Now(), Server)
    {
      hide Reachable, C.PlaceOf, S.PlaceOf, C.ClientMachine.Valid, S.ServerMachine.Valid, C.ClientMachine.Safe, S.ServerMachine.Safe;
      ServerRank(p, server.state);
    }

    /** One turn of the server's ssl_run_handshake. It is a turn of the product: idle only if there is
        nothing to do or to read, and not a stutter if the call is a ready one. */
    method ServerActs(n: nat, answer: Answer) returns (ghost t: Turn)
      requires Valid() && Favourable(answer)
      modifies this`up, this`down, server
      ensures Follows(old(Now()), t) && t.w == Server && t.ready == (n > 0 && answer.outcome == Succeeded)
    {
      hide Valid, Now, CanAct, Enabled, After, Stutters;
      var ready := n > 0 && answer.outcome == Succeeded;
      if server.wait == Again {
        ServerResumes();
      }
      if server.wait == Ok && server.state != S.Done {
        t := ServerRuns(ready, answer);
      } else if server.wait == Flush {
        t := ServerPushes(ready, if n <= |server.outbox| then n else |server.outbox|);
      } else if server.wait == ReadMessage && up != [] {
        t := ServerPulls(ready, n);
      } else if server.wait == ReadChangeCipherSpec && up != [] {
        t := ServerPullsChange(ready);
      } else {
        ServerIdles();
        t := Turn(Server, ready, None);
      }
    }

    /** Any schedule, with favourable answers: nothing is refused, what happens is a run of the product,
        and once both sides have had as many ready turns as the rank of the start, both are done,
        nothing is in flight and they have hashed the same messages, each message of the script once
        and in its order. */
    method Follow(schedule: seq<Call>) returns (ghost turns: seq<Turn>)
      requires Valid() && forall c <- schedule :: Favourable(c.answer)
      modifies this`up, this`down, client, server
      ensures Valid() && IsRun(p, old(Now()), turns) && Now() == End(p, old(Now()), turns) && SameChances(turns, Chances(schedule))
      ensures client.wait != Error && server.wait != Error
      ensures Rounds(Chances(schedule), false, false) >= Rank(old(Now())) ==>
        client.state == C.Done && server.state == S.Done && Agreed(p, Now())
    {
      hide Reachable, C.PlaceOf, S.PlaceOf, C.ClientMachine.Valid, S.ServerMachine.Valid, Allowed, Next, IsRun, End, Rank, Agreed, Rounds;
      hide C.ClientMachine.Safe, S.ServerMachine.Safe, SameChances, Chances;
      turns := [];
      NoRun(p, Now());
      NoChances(schedule);
      for i := 0 to |schedule|
        invariant Valid() && IsRun(p, old(Now()), turns) && Now() == End(p, old(Now()), turns)
        invariant SameChances(turns, Chances(schedule[..i]))
      {
        ghost var t := Acts(schedule[i]);
        RunGrows(p, old(Now()), turns, t);
        ChancesGrow(turns, schedule, i, t);
        turns := turns + [t];
      }
      assert schedule[..|schedule|] == schedule;
      Complete(old(Now()), turns, Chances(schedule));
    }

    method Acts(c: Call) returns (ghost t: Turn)
      requires Valid() && Favourable(c.answer)
      modifies this`up, this`down, client, server
      ensures Follows(old(Now()), t) && t.w == c.w && t.ready == IsReady(c)
    {
      hide Valid, Now, Allowed, Next;
      if c.w == Client {
        t := ClientActs(c.n, c.answer);
      } else {
        t := ServerActs(c.n, c.answer);
      }
    }

    lemma Complete(x: Product, turns: seq<Turn>, chances: seq<Turn>)
      requires Valid() && Reachable(p, x) && IsRun(p, x, turns) && Now() == End(p, x, turns) && SameChances(turns, chances)
      ensures client.wait != Error && server.wait != Error
      ensures Rounds(chances, false, false) >= Rank(x) ==> client.state == C.Done && server.state == S.Done && Agreed(p, Now())
    {
      hide Reachable, C.PlaceOf, S.PlaceOf, C.ClientMachine.Valid, S.ServerMachine.Valid, IsRun, End, Rank, Agreed, Rounds;
      hide C.ClientMachine.Safe, S.ServerMachine.Safe;
      ReachableMeans(p, Now(), Client);
      SameRounds(turns, chances, false, false);
      ClientRank(p, client.state);
      ServerRank(p, server.state);
      if Rounds(chances, false, false) >= Rank(x) {
        FairRunsComplete(p, x, turns);
      }
    }
  }

  predicate SameChances(turns: seq<Turn>, chances: seq<Turn>) {
    |turns| == |chances| && forall i | 0 <= i < |turns| :: turns[i].(act := None) == chances[i]
  }

  lemma {:induction false} SameRounds(turns: seq<Turn>, chances: seq<Turn>, c: bool, s: bool)
    requires SameChances(turns, chances)
    ensures Rounds(turns, c, s) == Rounds(chances, c, s)
    decreases |turns|
  {
    if turns != [] {
      assert turns[0].(act := None) == chances[0];
      var c', s' := c || (turns[0].ready && turns[0].w == Client), s || (turns[0].ready && turns[0].w == Server);
      if c' && s' {
        SameRounds(turns[1..], chances[1..], false, false);
      } else {
        SameRounds(turns[1..], chances[1..], c', s');
      }
    }
  }

  lemma Start(p: Params, x: Product)
    requires x.client == View(Script(p), 18, Ok, [], [], [], false, false) && x.server == View(Script(p), 19, Ok, [], [], [], false, false)
    requires x.up == x.down == []
    ensures Reachable(p, x) && Rank(x) == 3704
  {
    hide Script;
    StartIsReachable(p, x);
  }

  lemma NoChances(schedule: seq<Call>)
    ensures SameChances([], Chances(schedule[..0]))
  {
  }

  lemma ChancesGrow(turns: seq<Turn>, schedule: seq<Call>, i: nat, t: Turn)
    requires i < |schedule| && SameChances(turns, Chances(schedule[..i])) && t.w == schedule[i].w && t.ready == IsReady(schedule[i])
    ensures SameChances(turns + [t], Chances(schedule[..i + 1]))
  {
  }

  /** A record that arrives opens, and its messages join the inbox. */
  lemma PullTurn(p: Params, x: Product, w: Who, t: Turn, k: nat)
    requires Reachable(p, x) && Own(x, w).wait == ReadMessage && 0 < k <= |Incoming(x, w)| && OneRecord(Incoming(x, w)[..k])
    requires t.w == w && t.act == Some(Pull(k))
    ensures Allowed(p, x, t) && Reachable(p, Next(p, x, t)) && Opens(Incoming(x, w)[..k], Own(x, w).reading)
    ensures var v, items := Own(x, w), Incoming(x, w);
      Next(p, x, t) == With(x, w, v.(inbox := v.inbox + Messages(items[..k]), wait := Ok), items[k..], Incoming(x, Peer(w)))
  {
    hide Linked, Script, Messages, OnScript, OneRecord, Opens;
    RecordOpens(p, x, w, k);
    TurnIsReachable(p, x, t);
  }

  lemma PushTurn(p: Params, x: Product, w: Who, t: Turn, n: nat)
    requires Reachable(p, x) && Own(x, w).wait == Flush && n <= |Own(x, w).outbox| && (t.ready ==> n > 0 || Own(x, w).outbox == [])
    requires t.w == w && t.act == Some(Push(n))
    ensures Allowed(p, x, t) && Reachable(p, Next(p, x, t))
    ensures var v := Own(x, w);
      Next(p, x, t) == With(x, w, v.(outbox := v.outbox[n..], wait := if n == |v.outbox| then Ok else Flush),
        Incoming(x, w), Incoming(x, Peer(w)) + v.outbox[..n])
  {
    hide Reachable;
    TurnIsReachable(p, x, t);
  }

  lemma ChangeTurn(p: Params, x: Product, w: Who, t: Turn)
    requires Reachable(p, x) && Own(x, w).wait == ReadChangeCipherSpec && Incoming(x, w) != []
    requires t.w == w && t.act == Some(PullChangeCipherSpec)
    ensures Allowed(p, x, t) && Reachable(p, Next(p, x, t)) && Incoming(x, w)[0].Ccs? && Own(x, w).inbox == [] && Own(x, w).rest != []
    ensures var v := Own(x, w);
      Next(p, x, t) == With(x, w, v.(rest := v.rest[1..], reading := true, wait := Ok), Incoming(x, w)[1..], Incoming(x, Peer(w)))
  {
    hide Linked, Script, OnScript;
    ChangeArrives(p, x, w);
    TurnIsReachable(p, x, t);
  }

  lemma NoRun(p: Params, x: Product)
    ensures IsRun(p, x, []) && End(p, x, []) == x
  {
  }

  lemma ClientRank(p: Params, s: C.State)
    ensures C.PlaceOf(p, s).rank == 0 <==> s == C.Done
  {
  }

  lemma ServerRank(p: Params, s: S.State)
    ensures S.PlaceOf(p, s).rank == 0 <==> s == S.Done
  {
  }

  lemma ReachableMeans(p: Params, x: Product, w: Who)
    requires Reachable(p, x)
    ensures Inv(p, x) && Welcome(p, w, Own(x, w)) && x.client.wait != Error && x.server.wait != Error
  {
    AlwaysWelcome(p, x, w);
  }

  lemma TurnIsReachable(p: Params, x: Product, t: Turn)
    requires Reachable(p, x) && Allowed(p, x, t)
    ensures Reachable(p, Next(p, x, t))
  {
    hide Allowed, Next;
    TurnKeeps(p, x, t);
  }

  lemma OpensMeans(items: seq<Item>, reading: bool)
    ensures Opens(items, reading) <==> forall i | 0 <= i < |items| :: items[i].Hs? && items[i].sealed == reading
  {
  }

  /** A record holds one item, or up to `n` messages under the same keys. */
  method RecordSize(items: seq<Item>, n: nat) returns (k: nat)
    requires items != []
    ensures 0 < k <= |items| && OneRecord(items[..k])
  {
    k := 1;
    while k < n && k < |items| && items[0].Hs? && items[k].Hs? && items[k].sealed == items[0].sealed
      invariant 0 < k <= |items|
      invariant k == 1 || (items[0].Hs? && Opens(items[..k], items[0].sealed))
    {
      k := k + 1;
    }
  }
}
