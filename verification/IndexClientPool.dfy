/** The pool of acoustid/indexclient.py: idle clients are open and owe no answer. */
module IndexClientPools {
  import opened IndexClients
  import opened LineFraming
  import opened LineReading
  import opened Wrappers

  const ECHO: seq<byte> := [101, 99, 104, 111]
  const PING_TIMEOUT := 1000

  /** A client another user can take over: open, and no answer is on its way. */
  ghost predicate Ready(client: IndexClient)
    reads client
  {
    client.Valid() && client.connected && client.Outstanding() == 0
  }

  /** A ping will end, and so will the close if it is refused. */
  ghost predicate PingEnds(client: IndexClient)
    reads client
  {
    && client.RequestEnds(PING_TIMEOUT)
    && (client.Reply(PING_TIMEOUT).Some? && Verdict(client.decodes, client.Reply(PING_TIMEOUT).value).Failure? ==>
          client.AnswerEnds(PING_TIMEOUT) || Verdict(client.decodes, client.Reply(PING_TIMEOUT).value).error == BadEncoding)
  }

  class IndexClientPool {
    const maxIdleClients: nat
    var clients: seq<IndexClient>

    constructor (maxIdleClients: nat)
      ensures Valid() && clients == [] && this.maxIdleClients == maxIdleClients
    {
      this.maxIdleClients := maxIdleClients;
      clients := [];
    }

    ghost predicate Valid()
      reads this, clients
    {
      && |clients| <= maxIdleClients
      && (forall i :: 0 <= i < |clients| ==> Ready(clients[i]))
      && (forall i, j :: 0 <= i < j < |clients| ==> clients[i] != clients[j])
    }

    /** `_release`: closed clients are dropped, open ones kept while there is room. */
    method Release(client: IndexClient)
      requires Valid() && client !in clients && client.Valid() && (client.connected ==> client.Outstanding() == 0)
      requires client.connected && |clients| >= maxIdleClients ==> client.CloseEnds()
      modifies this, client
      ensures Valid()
      ensures clients == if old(client.connected) && |old(clients)| < maxIdleClients then old(clients) + [client] else old(clients)
      ensures client in clients || !client.connected
      ensures client in clients ==> client.inTransaction == old(client.inTransaction)
      ensures client.sent == old(client.sent) + if client in clients || !old(client.connected) then [] else old(client.RolledBack(client.sends))
    {
      if !client.connected {
        return;
      }
      if |clients| < maxIdleClients {
        clients := clients + [client];
        return;
      }
      client.Close();
    }

    /** `IndexClientWrapper.close`: roll back, then release whatever came of it. A client goes
        back into the pool inside a transaction only if the server refused the rollback on a
        connection that it left open. */
    method CloseWrapper(client: IndexClient) returns (error: Option<Error>)
      requires Valid() && client !in clients && client.Valid() && (client.connected ==> client.Outstanding() == 0)
      requires client.inTransaction ==> client.RequestEnds(client.timeout)
      requires client.inTransaction && |clients| >= maxIdleClients ==>
                 var reply := client.Reply(client.timeout);
                 reply.Some? && Verdict(client.decodes, reply.value).Failure? ==> client.AnswerEnds(client.timeout)
      modifies this, client
      ensures Valid() && (client in clients || !client.connected)
      ensures old(clients) <= clients <= old(clients) + [client]
      ensures client in clients ==> (client.inTransaction <==> old(client.inTransaction) && error.Some?)
      ensures old(client.inTransaction) ==>
                var reply := old(client.Reply(client.timeout));
                && (error.None? <==> reply.Some? && Verdict(client.decodes, reply.value).Success?)
                && (client in clients <==>
                      reply.Some? && !ClosesOn(client.decodes, reply.value) && |old(clients)| < maxIdleClients)
                && old(client.sent) + old(client.Sends(ROLLBACK, client.timeout)) <= client.sent
                && (client in clients ==> client.sent == old(client.sent) + [ROLLBACK])
      ensures !old(client.inTransaction) ==> client.sent == old(client.sent)
    {
      hide Find, Contains, ClosesOn, EndsFrom, IndexClient.AnswerEnds, IndexClient.LineEnds, IndexClient.ClosesFrom;
      error := None;
      if client.inTransaction {
        error := client.Finish(ROLLBACK);
      }
      if client.connected {
        Release(client);
      }
    }

    /** `connect`: the longest idle client if it is neither too old nor fails its ping, a new
        one otherwise. A ping whose answer does not decode is not an IndexClientError, and the
        client is neither closed nor handed out. */
    method Connect(tooOld: bool, spare: Option<IndexClient>) returns (r: Result<IndexClient, Error>)
      requires Valid()
      requires spare.Some? ==> spare.value !in clients && Ready(spare.value)
      requires clients != [] && tooOld ==> clients[0].CloseEnds()
      requires clients != [] && !tooOld ==> PingEnds(clients[0])
      modifies this, clients
      ensures Valid() && clients == if old(clients) == [] then [] else old(clients)[1..]
      ensures r.Success? ==> Ready(r.value) && r.value !in clients
      ensures r.Success? ==> spare == Some(r.value) || (old(clients) != [] && r.value == old(clients)[0] && !tooOld)
      ensures r.Failure? ==> spare.None? || r.error == BadEncoding
      ensures old(clients) != [] ==>
                || r == Success(old(clients)[0]) || r == Failure(BadEncoding)
                || (!old(clients)[0].connected && !old(clients)[0].inTransaction)
      ensures r.Success? && spare != Some(r.value) ==> r.value.sent == old(r.value.sent) + [ECHO]
      ensures old(clients) != [] && tooOld ==>
                old(clients)[0].sent == old(clients[0].sent) + old(clients[0].RolledBack(clients[0].sends))
    {
      hide Find, Contains, EndsFrom, Bytes, Joined, Split, IsLine, IndexClient.AnswerEnds, IndexClient.LineEnds, IndexClient.ClosesFrom, IndexClient.TakesLine;
      if clients != [] {
        var client := clients[0];
        clients := clients[1..];
        var answer: Result<seq<byte>, Error> := Failure(Misuse);
        if !tooOld {
          answer := client.Request(ECHO, PING_TIMEOUT);
        }
        if answer.Success? {
          return Success(client);
        }
        if answer.error == BadEncoding {
          return Failure(BadEncoding);
        }
        client.Close();
      }
      r := if spare.Some? then Success(spare.value) else Failure(NotConnected);
    }

    /** `dispose` */
    method Dispose()
      requires Valid() && forall i :: 0 <= i < |clients| ==> clients[i].CloseEnds()
      modifies this, clients
      ensures Valid() && clients == []
      ensures forall client :: client in old(clients) ==>
                && !client.connected && !client.inTransaction
                && client.sent == old(client.sent) + old(client.RolledBack(client.sends))
    {
      hide IndexClient.Valid, IndexClient.CloseEnds;
      ghost var all := clients;
      ghost var done := 0;
      while clients != []
        invariant Valid() && done <= |all| && clients == all[done..]
        invariant forall i :: 0 <= i < |clients| ==> clients[i].CloseEnds()
        invariant forall i :: 0 <= i < done ==>
                    && !all[i].connected && !all[i].inTransaction
                    && all[i].sent == old(all[i].sent) + old(all[i].RolledBack(all[i].sends))
        invariant forall i :: done <= i < |all| ==> unchanged(all[i])
        invariant forall i, j :: 0 <= i < j < |all| ==> all[i] != all[j]
        decreases |clients|
      {
        var client := clients[0];
        clients := clients[1..];
        client.Close();
        done := done + 1;
      }
    }
  }

  // ----- a client released inside a transaction -----------------------------------------------

  const YES: seq<byte> := [79, 75, 32, 13, 10]
  const NO: seq<byte> := [78, 79, 13, 10]

  /** A server that answers OK to the first request and NO to the second. */
  function Stubborn(): Server {
    Server(_ => Readable,
           (q: nat) => if q == 0 then Data(YES) else if q == 2 then Data(NO) else WouldBlock,
           _ => true,
           (p: nat) => p,
           (p: nat) => p + 1)
  }

  /** Where each of the two waits ends. */
  lemma StubbornAnswers(k: nat, deadline: int)
    requires k < 2 && deadline >= 3
    ensures
      var start, end := Waiting(k, 2 * k, []), Done(k + 1, 2 * k + 2, if k == 0 then YES else NO, Line);
      Ends(Stubborn(), deadline, start) && Final(Stubborn(), deadline, start) == end
    ensures Find(YES) == Some(3) && Find(NO) == Some(2)
  {
    hide Step, After, Find, Stubborn;
    var server, start, text := Stubborn(), Waiting(k, 2 * k, []), if k == 0 then YES else NO;
    FoundIn();
    StubbornSteps(k, deadline, text);
    FourSteps(server, deadline, start, Draining(k, 2 * k, []), Draining(k, 2 * k + 1, text),
              Waiting(k + 1, 2 * k + 2, text), Done(k + 1, 2 * k + 2, text, Line));
    FinalIs(server, deadline, start, 4);
  }

  lemma StubbornSteps(k: nat, deadline: int, text: seq<byte>)
    requires k < 2 && deadline >= 3 && text == if k == 0 then YES else NO
    ensures Step(Stubborn(), deadline, Waiting(k, 2 * k, [])) == Draining(k, 2 * k, [])
    ensures Step(Stubborn(), deadline, Draining(k, 2 * k, [])) == Draining(k, 2 * k + 1, text)
    ensures Step(Stubborn(), deadline, Draining(k, 2 * k + 1, text)) == Waiting(k + 1, 2 * k + 2, text)
    ensures Step(Stubborn(), deadline, Waiting(k + 1, 2 * k + 2, text)) == Done(k + 1, 2 * k + 2, text, Line)
  {
    FoundIn();
    hide Find;
    assert [] + text == text;
  }

  lemma FoundIn()
    ensures Find(YES) == Some(3) && Find(NO) == Some(2) && Find([]).None?
  {
    assert EndsAt(YES, 3) && EndsAt(NO, 2);
  }

  lemma FourSteps(server: Server, deadline: int, r0: Reading, r1: Reading, r2: Reading, r3: Reading, r4: Reading)
    requires Step(server, deadline, r0) == r1 && Step(server, deadline, r1) == r2
    requires Step(server, deadline, r2) == r3 && Step(server, deadline, r3) == r4
    ensures After(server, deadline, r0, 4) == r4
  {
    hide Step;
    assert After(server, deadline, r0, 0) == r0;
    assert After(server, deadline, r0, 1) == r1;
    assert After(server, deadline, r0, 2) == r2;
    assert After(server, deadline, r0, 3) == r3;
  }

  lemma WaitsStubbornly(client: IndexClient, k: nat)
    requires client.Valid() && client.connected && client.server == Stubborn() && client.timeout == DEFAULT_TIMEOUT
    requires k < 2 && client.selects == k && client.recvs == 2 * k && client.buffer == []
    ensures client.WaitEnds(client.timeout) && client.Wait(client.timeout) == Done(k + 1, 2 * k + 2, if k == 0 then YES else NO, Line)
    ensures client.RequestEnds(client.timeout)
    ensures client.Reply(client.timeout) == Some(if k == 0 then OK else NO[..2])
  {
    NotUnknown();
    hide Step, After, Find, Contains, Bytes, Joined, Ends;
    StubbornAnswers(k, k + DEFAULT_TIMEOUT);
    assert client.server.clock(k) == k && client.server.send(client.sends);
    assert YES[..3] == OK;
  }

  method OpensTransaction(decodes: seq<byte> -> bool) returns (client: IndexClient)
    requires decodes(OK)
    ensures fresh(client) && client.Valid() && client.connected && client.inTransaction && client.Outstanding() == 0
    ensures client.server == Stubborn() && client.decodes == decodes && client.timeout == DEFAULT_TIMEOUT
    ensures client.selects == 1 && client.recvs == 2 && client.buffer == []
  {
    hide Stubborn, Contains;
    client := new IndexClient(decodes, Stubborn());
    WaitsStubbornly(client, 0);
    hide IndexClient.Wait, IndexClient.Reply, IndexClient.RequestEnds, Find;
    StubbornAnswers(0, DEFAULT_TIMEOUT);
    var error := client.Begin();
  }

  /** A rollback that the server refuses on a live connection: the client goes back into the
      pool with its transaction open. */
  method ReleasedInsideTransaction() returns (pool: IndexClientPool, client: IndexClient)
    ensures fresh(pool) && pool.Valid() && client in pool.clients && client.inTransaction
  {
    hide Stubborn, Find, Contains, EndsFrom, IndexClient.Wait, IndexClient.Reply, IndexClient.RequestEnds, IndexClient.AnswerEnds;
    pool := new IndexClientPool(5);
    client := OpensTransaction(_ => true);
    WaitsStubbornly(client, 1);
    NotUnknown();
    var error := pool.CloseWrapper(client);
  }

  lemma NotUnknown()
    ensures !Contains(NO[..2], UNKNOWN_COMMAND) && !(OK <= NO[..2])
  {
  }
}
