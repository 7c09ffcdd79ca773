/** The client of the index server, acoustid/indexclient.py. */
module IndexClients {
  import opened LineFraming
  import opened LineReading
  import opened Wrappers

  /** `Refused` is an answer that does not start with OK, `Misuse` a call that the state of
      the transaction forbids, `NotConnected` the failed assertion of a closed client. */
  datatype Error = NotConnected | SendFailed | ReceiveFailed | Late | BadEncoding | Refused(line: seq<byte>) | Misuse

  const OK: seq<byte> := [79, 75, 32]
  const UNKNOWN_COMMAND: seq<byte> := [117, 110, 107, 110, 111, 119, 110, 32, 99, 111, 109, 109, 97, 110, 100]
  const BEGIN: seq<byte> := [98, 101, 103, 105, 110]
  const COMMIT: seq<byte> := [99, 111, 109, 109, 105, 116]
  const ROLLBACK: seq<byte> := [114, 111, 108, 108, 98, 97, 99, 107]

  // in milliseconds
  const DEFAULT_TIMEOUT := 10000
  const COMMIT_TIMEOUT := 600000

  predicate HasAt(line: seq<byte>, part: seq<byte>, i: nat) {
    i + |part| <= |line| && line[i..i + |part|] == part
  }

  predicate Contains(line: seq<byte>, part: seq<byte>) {
    exists i :: 0 <= i <= |line| && HasAt(line, part, i)
  }

  predicate IsAround(line: seq<byte>, before: seq<byte>, part: seq<byte>, after: seq<byte>) {
    line == before + part + after
  }

  /** `part in line` */
  lemma ContainsIsSubstring(line: seq<byte>, part: seq<byte>)
    ensures Contains(line, part) <==> exists before, after :: IsAround(line, before, part, after)
  {
    if Contains(line, part) {
      var i :| 0 <= i <= |line| && HasAt(line, part, i);
      assert IsAround(line, line[..i], part, line[i + |part|..]);
    }
    if before, after :| IsAround(line, before, part, after) {
      assert HasAt(line, part, |before|);
    }
  }

  /** What `_request` makes of the line that answers it. */
  function Verdict(decodes: seq<byte> -> bool, line: seq<byte>): Result<seq<byte>, Error> {
    if !decodes(line) then Failure(BadEncoding)
    else if OK <= line then Success(line[3..])
    else Failure(Refused(line))
  }

  /** The one answer that makes `_request` close the client. */
  predicate ClosesOn(decodes: seq<byte> -> bool, line: seq<byte>) {
    decodes(line) && !(OK <= line) && Contains(line, UNKNOWN_COMMAND)
  }

  class IndexClient {
    // whether the bytes of a line are UTF-8
    const decodes: seq<byte> -> bool
    const server: Server
    const timeout: nat
    // `sock is not None`
    var connected: bool
    var inTransaction: bool
    var buffer: seq<byte>
    // the calls of select, recv and sendall so far
    var selects: nat
    var recvs: nat
    var sends: nat
    // what has happened on the connection
    ghost var sent: seq<seq<byte>>
    ghost var lines: seq<seq<byte>>
    ghost var closings: nat

    constructor (decodes: seq<byte> -> bool, server: Server)
      ensures Valid() && connected && !inTransaction && Outstanding() == 0 && closings == 0
      ensures this.decodes == decodes && this.server == server && timeout == DEFAULT_TIMEOUT
      ensures selects == recvs == sends == 0 && buffer == []
    {
      this.decodes, this.server, timeout := decodes, server, DEFAULT_TIMEOUT;
      connected, inTransaction, buffer := true, false, [];
      selects, recvs, sends := 0, 0, 0;
      sent, lines, closings := [], [], 0;
    }

    /** What has been received is the lines handed out and the buffer, and a closed client is
        in no transaction. */
    ghost predicate Valid()
      reads this
    {
      && (inTransaction ==> connected)
      && Bytes(server, recvs) == Joined(lines) + buffer
      && forall i :: 0 <= i < |lines| ==> IsLine(lines[i])
    }

    /** Requests sent that no line has been read for. */
    ghost function Outstanding(): int
      reads this
    {
      |sent| - |lines|
    }

    /** Whether waiting for a line will end, */
    ghost predicate WaitEnds(timeout: nat)
      reads this
    {
      EndsFrom(server, selects, recvs, buffer, timeout)
    }

    /** and where. */
    ghost function Wait(timeout: nat): Reading
      requires WaitEnds(timeout)
      reads this
    {
      Final(server, server.clock(selects) + timeout, Waiting(selects, recvs, buffer))
    }

    /** The line that would answer a request made now, if one will. */
    ghost function Reply(timeout: nat): Option<seq<byte>>
      requires connected && server.send(sends) ==> WaitEnds(timeout)
      reads this
    {
      if connected && server.send(sends) && Wait(timeout).outcome == Line && Find(Wait(timeout).buffer).Some? then
        Some(Wait(timeout).buffer[..Find(Wait(timeout).buffer).value])
      else None
    }

    // What has to end for a method to: the one wait it makes, and the wait for the answer to
    // the rollback of a close that it may come to.

    /** A close would end, once so much has been received, buffered and sent. */
    ghost predicate ClosesFrom(p: nat, q: nat, buffered: seq<byte>, sent: nat)
      reads this
    {
      inTransaction && server.send(sent) ==> EndsFrom(server, p, q, buffered, timeout)
    }

    ghost predicate CloseEnds()
      reads this
    {
      ClosesFrom(selects, recvs, buffer, sends)
    }

    /** A wait will end, and a close after it if it gets no line. */
    ghost predicate LineEnds(timeout: nat, sent: nat)
      reads this
    {
      && WaitEnds(timeout)
      && (Wait(timeout).outcome != Line ==>
            ClosesFrom(Wait(timeout).selects, Wait(timeout).recvs, Wait(timeout).buffer, sent))
    }

    /** So will a close after a request has had its answer. */
    ghost predicate AnswerEnds(timeout: nat)
      requires connected && server.send(sends) ==> WaitEnds(timeout)
      reads this
    {
      Reply(timeout).Some? ==>
        var end := Wait(timeout);
        ClosesFrom(end.selects, end.recvs, end.buffer[Find(end.buffer).value + 2..], sends + 1)
    }

    ghost predicate RequestEnds(timeout: nat)
      reads this
    {
      && (connected && !server.send(sends) ==> ClosesFrom(selects, recvs, buffer, sends + 1))
      && (connected && server.send(sends) ==> LineEnds(timeout, sends + 1))
      && (Reply(timeout).Some? && ClosesOn(decodes, Reply(timeout).value) ==> AnswerEnds(timeout))
    }

    /** With a server under which every wait ends, everything does. */
    lemma EverythingEnds(timeout: nat)
      requires AlwaysEnds(server)
      ensures WaitEnds(timeout) && CloseEnds() && RequestEnds(timeout) && AnswerEnds(timeout)
    {
      hide Ends, Find, Contains;
      assert EndsFrom(server, selects, recvs, buffer, timeout);
    }

    /** What a close makes of an open transaction, once so many lines have been sent: a rollback,
        if it can be sent. */
    ghost function RolledBack(sends: nat): seq<seq<byte>>
      reads this
    {
      if inTransaction && server.send(sends) then [ROLLBACK] else []
    }

    /** What a request sends: itself, if that succeeds, and the rollback of the close it may
        come to. */
    ghost function Sends(request: seq<byte>, timeout: nat): seq<seq<byte>>
      requires connected && server.send(sends) ==> WaitEnds(timeout)
      reads this
    {
      if !connected then []
      else if !server.send(sends) then RolledBack(sends + 1)
      else if Reply(timeout).Some? && !ClosesOn(decodes, Reply(timeout).value) then [request]
      else [request] + RolledBack(sends + 1)
    }

    /** The rank of the methods that call each other: a close clears the flag first. */
    ghost function Rank(): nat
      reads this
    {
      if inTransaction then 1 else 0
    }

    /** `close`. It ends with no socket and no transaction, after at most one more close
        within, and has sent a rollback exactly if there was a transaction and it could. */
    method Close()
      requires Valid() && CloseEnds()
      modifies this
      ensures Valid() && !connected && !inTransaction
      ensures sent == old(sent) + old(RolledBack(sends))
      ensures old(closings) < closings <= old(closings) + 1 + old(Rank())
      decreases Rank(), 0
    {
      closings := closings + 1;
      var wasInTransaction := inTransaction;
      inTransaction := false;
      if connected {
        if wasInTransaction {
          var _ := Request(ROLLBACK, timeout);
        }
        // after a nested close this is a method call on None, which is swallowed
        connected := false;
      }
      connected := false;
    }

    /** `_putline` */
    method PutLine(line: seq<byte>) returns (error: Option<Error>)
      requires Valid() && (connected && !server.send(sends) ==> ClosesFrom(selects, recvs, buffer, sends + 1))
      modifies this
      ensures Valid() && old(closings) <= closings <= old(closings) + 1 + old(Rank())
      ensures error == if !old(connected) then Some(NotConnected)
                       else if server.send(old(sends)) then None
                       else Some(SendFailed)
      ensures error.None? ==>
                && connected && inTransaction == old(inTransaction) && sent == old(sent) + [line] && lines == old(lines)
                && sends == old(sends) + 1 && selects == old(selects) && recvs == old(recvs) && buffer == old(buffer) && closings == old(closings)
      ensures !old(connected) ==> !connected && inTransaction == old(inTransaction) && closings == old(closings)
      ensures error == Some(SendFailed) ==> !connected && !inTransaction && sent == old(sent) + old(RolledBack(sends + 1))
      ensures error == Some(NotConnected) ==> sent == old(sent)
      decreases Rank(), 1
    {
      if !connected {
        return Some(NotConnected);
      }
      var ok := server.send(sends);
      sends := sends + 1;
      if !ok {
        Close();
        return Some(SendFailed);
      }
      sent := sent + [line];
      error := None;
    }

    /** The inner loop of `_getline`: recv until it finds nothing, the end or an error. */
    method Drain(ghost deadline: int, ghost start: Reading, ghost n: nat) returns (broken: bool, ghost m: nat)
      requires StopsAfter(server, recvs) && After(server, deadline, start, n) == Draining(selects, recvs, buffer)
      modifies this`buffer, this`recvs
      ensures n <= m && Stopped(server, deadline, start, m, selects, recvs, buffer, broken)
    {
      hide After, Step, Stops, StopsAfter, Stopped, Ends, EndsFrom;
      ghost var last := SomeStop(server, recvs);
      m := n;
      while true
        invariant recvs <= last && n <= m
        invariant After(server, deadline, start, m) == Draining(selects, recvs, buffer)
        decreases last - recvs
      {
        var received := server.recv(recvs);
        DrainGoesOn(server, deadline, start, m, Draining(selects, recvs, buffer), received, last);
        recvs := recvs + 1;
        match received {
          case Interrupted =>
          case WouldBlock => return false, m;
          case Broken => return true, m;
          case Data(data) =>
            if data == [] {
              return false, m;
            }
            buffer := buffer + data;
        }
        m := m + 1;
      }
    }

    /** The loop of `_getline`: wait until there is a line in the buffer, select fails, or a
        round ends after the deadline. Every call of select and recv is a step of the wait. */
    method AwaitLine(timeout: nat) returns (outcome: Outcome)
      requires Valid() && WaitEnds(timeout)
      modifies this`buffer, this`selects, this`recvs
      ensures Done(selects, recvs, buffer, outcome) == old(Wait(timeout))
      ensures Valid() && (outcome == Line ==> Find(buffer).Some?)
    {
      hide Step, Find, Stopped, Stops, StopsAfter;
      var deadline := server.clock(selects) + timeout;
      ghost var start := Waiting(selects, recvs, buffer);
      ghost var total: nat :| After(server, deadline, start, total).Done?;
      hide Ends;
      ghost var n: nat := 0;
      while Find(buffer).None?
        invariant After(server, deadline, start, n) == Waiting(selects, recvs, buffer)
        invariant n <= total
        decreases total - n
      {
        NotDoneYet(server, deadline, start, n, total);
        WaitingSteps(server, deadline, start, n);
        var selected := server.select(selects);
        if selected.SelectInterrupted? {
          selects, n := selects + 1, n + 1;
          NotDoneYet(server, deadline, start, n, total);
          continue;
        }
        if selected.SelectFails? || selected.InError? {
          selects := selects + 1;
          EndsHere(server, deadline, start, n + 1, lines);
          return Failed;
        }
        if selected.Readable? {
          BurstStops(server, deadline, start, n + 1, total);
          ghost var m;
          var broken;
          broken, m := Drain(deadline, start, n + 1);
          StoppedSteps(server, deadline, start, m, selects, recvs, buffer, broken);
          n := m;
          if broken {
            selects := selects + 1;
            EndsHere(server, deadline, start, n + 1, lines);
            return Failed;
          }
        }
        selects, n := selects + 1, n + 1;
        // too late even if the line has just arrived
        if server.after(selects - 1) > deadline {
          EndsHere(server, deadline, start, n, lines);
          return TimedOut;
        }
        NotDoneYet(server, deadline, start, n, total);
      }
      WaitingSteps(server, deadline, start, n);
      EndsHere(server, deadline, start, n + 1, lines);
      outcome := Line;
    }

    /** `_getline`: the next line of what the server has sent, wherever recv has cut it, or the
        client is closed; only a line that does not decode is lost on an open client. */
    method GetLine(timeout: nat) returns (r: Result<seq<byte>, Error>)
      requires Valid() && (connected ==> LineEnds(timeout, sends))
      modifies this
      ensures Valid() && old(closings) <= closings <= old(closings) + 1 + old(Rank())
      ensures !old(connected) ==>
                r == Failure(NotConnected) && !connected && inTransaction == old(inTransaction) && closings == old(closings)
      ensures old(connected) ==> (connected <==> old(Wait(timeout)).outcome == Line)
      ensures connected ==>
                && old(connected) && inTransaction == old(inTransaction) && sent == old(sent) && sends == old(sends)
                && closings == old(closings) && selects == old(Wait(timeout)).selects && recvs == old(Wait(timeout)).recvs
                && Find(old(Wait(timeout)).buffer).Some?
                && TakesLine(old(lines), old(Wait(timeout)).buffer)
                && r == if decodes(lines[|old(lines)|]) then Success(lines[|old(lines)|]) else Failure(BadEncoding)
      ensures old(connected) && !connected ==>
                r == Failure(if old(Wait(timeout)).outcome == TimedOut then Late else ReceiveFailed) && !inTransaction
      ensures !connected ==> sent == old(sent) + if old(connected) then old(RolledBack(sends)) else []
      decreases Rank(), 1
    {
      if !connected {
        return Failure(NotConnected);
      }
      hide Ends;
      var outcome := AwaitLine(timeout);
      if outcome != Line {
        Close();
        return Failure(if outcome == TimedOut then Late else ReceiveFailed);
      }
      var line := TakeLine();
      r := if decodes(line) then Success(line) else Failure(BadEncoding);
    }

    /** The first line of what was buffered has been handed out, and it is the next line of
        the CRLF split of all bytes received. */
    ghost predicate TakesLine(before: seq<seq<byte>>, buffered: seq<byte>)
      requires Find(buffered).Some?
      reads this
    {
      var pos := Find(buffered).value;
      && lines == before + [buffered[..pos]] && buffer == buffered[pos + 2..]
      && |lines| <= |Split(Bytes(server, recvs))| && lines[|before|] == Split(Bytes(server, recvs))[|before|]
    }

    method TakeLine() returns (line: seq<byte>)
      requires Valid() && Find(buffer).Some?
      modifies this`buffer, this`lines
      ensures Valid() && TakesLine(old(lines), old(buffer)) && line == lines[|old(lines)|]
    {
      var pos := Find(buffer).value;
      FoundIsLine(buffer);
      JoinedSnoc(lines, buffer[..pos]);
      line := buffer[..pos];
      calc {
        Bytes(server, recvs);
        Joined(lines) + buffer;
        Joined(lines) + (line + CRLF + buffer[pos + 2..]);
        (Joined(lines) + line + CRLF) + buffer[pos + 2..];
        Joined(lines + [line]) + buffer[pos + 2..];
      }
      buffer := buffer[pos + 2..];
      lines := lines + [line];
      SplitJoined(lines, buffer);
    }

    /** `_request`. The client stays open exactly if it gets a line and the line is not the one
        for an unknown command. An open client has read a line for each request it has sent, so
        that the line it takes for the answer is the answer to this request. */
    method Request(request: seq<byte>, timeout: nat) returns (r: Result<seq<byte>, Error>)
      requires Valid() && RequestEnds(timeout)
      modifies this
      ensures Valid() && old(closings) <= closings <= old(closings) + 1 + old(Rank())
      ensures connected <==> old(Reply(timeout)).Some? && !ClosesOn(decodes, old(Reply(timeout)).value)
      ensures old(Reply(timeout)).Some? ==> r == Verdict(decodes, old(Reply(timeout)).value)
      ensures old(Reply(timeout)).None? && old(connected) ==>
                r == Failure(if !server.send(old(sends)) then SendFailed
                             else if old(Wait(timeout)).outcome == TimedOut then Late else ReceiveFailed)
      ensures !old(connected) ==> r == Failure(NotConnected) && inTransaction == old(inTransaction)
      ensures old(connected) && !connected ==> !inTransaction
      ensures sent == old(sent) + old(Sends(request, timeout))
      ensures connected ==>
                && inTransaction == old(inTransaction) && Outstanding() == old(Outstanding())
                && sent == old(sent) + [request] && sends == old(sends) + 1
                && |lines| <= |Split(Bytes(server, recvs))|
                && old(Reply(timeout)) == Some(Split(Bytes(server, recvs))[|old(lines)|])
                && selects == old(Wait(timeout)).selects && recvs == old(Wait(timeout)).recvs
                && TakesLine(old(lines), old(Wait(timeout)).buffer)
      ensures connected && old(AnswerEnds(timeout)) ==> CloseEnds()
      decreases Rank(), 2
    {
      hide Ends, EndsFrom, Find, Contains, Bytes, Joined, Split, IsLine;
      var error := PutLine(request);
      if error.Some? {
        return Failure(error.value);
      }
      r := GetLine(timeout);
      if r.Failure? {
        return;
      }
      var line := r.value;
      if OK <= line {
        return Success(line[3..]);
      }
      if Contains(line, UNKNOWN_COMMAND) {
        Close();
      }
      r := Failure(Refused(line));
    }

    /** `begin`: it opens a transaction exactly if there was none and the server says OK. */
    method Begin() returns (error: Option<Error>)
      requires Valid() && (!inTransaction ==> RequestEnds(timeout))
      modifies this
      ensures Valid()
      ensures old(inTransaction) ==> error == Some(Misuse) && connected == old(connected) && inTransaction
      ensures !old(inTransaction) ==>
                && (error.None? <==> old(Reply(timeout)).Some? && Verdict(decodes, old(Reply(timeout)).value).Success?)
                && (inTransaction <==> error.None?)
      ensures error.None? ==>
                && connected && sends == old(sends) + 1
                && selects == old(Wait(timeout)).selects && recvs == old(Wait(timeout)).recvs
                && TakesLine(old(lines), old(Wait(timeout)).buffer)
      ensures connected ==> old(connected) && Outstanding() == old(Outstanding())
      ensures sent == old(sent) + if !old(inTransaction) && old(connected) && server.send(old(sends)) then [BEGIN] else []
    {
      hide Ends, Contains;
      if inTransaction {
        return Some(Misuse);
      }
      var r := Request(BEGIN, timeout);
      if r.Failure? {
        return Some(r.error);
      }
      inTransaction := true;
      error := None;
    }

    /** `commit` and `rollback`: the transaction is over exactly if the server says OK or the
        connection is gone. */
    method Finish(command: seq<byte>) returns (error: Option<Error>)
      requires Valid() && command in {COMMIT, ROLLBACK}
      requires inTransaction ==> RequestEnds(if command == COMMIT then COMMIT_TIMEOUT else timeout)
      modifies this
      ensures Valid()
      ensures !old(inTransaction) ==> error == Some(Misuse) && connected == old(connected) && !inTransaction
      ensures error.None? ==> old(inTransaction) && connected && !inTransaction
      ensures old(inTransaction) && old(connected) && error.Some? ==> (inTransaction <==> connected)
      ensures
        old(inTransaction) ==>
          var reply := old(Reply(if command == COMMIT then COMMIT_TIMEOUT else timeout));
          && (error.None? <==> reply.Some? && Verdict(decodes, reply.value).Success?)
          && (connected <==> reply.Some? && !ClosesOn(decodes, reply.value))
          && (old(AnswerEnds(if command == COMMIT then COMMIT_TIMEOUT else timeout)) ==> CloseEnds())
      ensures connected ==> old(connected) && Outstanding() == old(Outstanding())
      ensures sent == old(sent) +
                if old(inTransaction) then old(Sends(command, if command == COMMIT then COMMIT_TIMEOUT else timeout)) else []
    {
      hide Ends, Contains;
      if !inTransaction {
        return Some(Misuse);
      }
      var r := Request(command, if command == COMMIT then COMMIT_TIMEOUT else timeout);
      if r.Failure? {
        return Some(r.error);
      }
      inTransaction := false;
      error := None;
    }
  }

  // ----- the wait, step by step -----------------------------------------------------------------

  lemma NotDoneYet(server: Server, deadline: int, start: Reading, n: nat, total: nat)
    requires After(server, deadline, start, total).Done? && !After(server, deadline, start, n).Done?
    ensures n < total
  {
    if total <= n {
      DoneStaysDone(server, deadline, start, total, n);
    }
  }

  lemma WaitingSteps(server: Server, deadline: int, start: Reading, n: nat)
    requires After(server, deadline, start, n).Waiting?
    ensures
      var r := After(server, deadline, start, n);
      After(server, deadline, start, n + 1) ==
        if Find(r.buffer).Some? then Done(r.selects, r.recvs, r.buffer, Line)
        else match server.select(r.selects)
             case SelectInterrupted => Waiting(r.selects + 1, r.recvs, r.buffer)
             case Idle => Checked(server, deadline, r.selects, r.recvs, r.buffer)
             case Readable => Draining(r.selects, r.recvs, r.buffer)
             case _ => Done(r.selects + 1, r.recvs, r.buffer, Failed)
  {
  }

  /** The wait has just made the recv that stops its burst. */
  ghost predicate Stopped(server: Server, deadline: int, start: Reading, n: nat,
                          selects: nat, recvs: nat, buffer: seq<byte>, broken: bool) {
    && recvs > 0 && After(server, deadline, start, n) == Draining(selects, recvs - 1, buffer)
    && Stops(server.recv(recvs - 1)) && broken == server.recv(recvs - 1).Broken?
  }

  lemma SomeStop(server: Server, recvs: nat) returns (last: nat)
    requires StopsAfter(server, recvs)
    ensures recvs <= last && Stops(server.recv(last))
  {
    last :| recvs <= last && Stops(server.recv(last));
  }

  lemma DrainGoesOn(server: Server, deadline: int, start: Reading, n: nat, r: Reading, received: Received, last: nat)
    requires r.Draining? && After(server, deadline, start, n) == r && received == server.recv(r.recvs)
    requires r.recvs <= last && Stops(server.recv(last))
    ensures
      if received.WouldBlock? || received.Broken? || (received.Data? && received.data == []) then
        Stopped(server, deadline, start, n, r.selects, r.recvs + 1, r.buffer, received.Broken?)
      else
        && r.recvs < last
        && After(server, deadline, start, n + 1) ==
           Draining(r.selects, r.recvs + 1, if received.Data? then r.buffer + received.data else r.buffer)
  {
  }

  lemma StoppedSteps(server: Server, deadline: int, start: Reading, n: nat,
                     selects: nat, recvs: nat, buffer: seq<byte>, broken: bool)
    requires Stopped(server, deadline, start, n, selects, recvs, buffer, broken)
    ensures
      After(server, deadline, start, n + 1) ==
        if broken then Done(selects + 1, recvs, buffer, Failed) else Checked(server, deadline, selects, recvs, buffer)
  {
  }

  /** A wait that ends has no burst that does not. */
  lemma BurstStops(server: Server, deadline: int, start: Reading, n: nat, total: nat)
    requires After(server, deadline, start, n).Draining? && After(server, deadline, start, total).Done?
    ensures StopsAfter(server, After(server, deadline, start, n).recvs)
  {
    NotDoneYet(server, deadline, start, n, total);
    AfterAfter(server, deadline, start, n, total - n);
    DrainEndsIff(server, deadline, After(server, deadline, start, n));
    assert n + (total - n) == total;
  }

  /** Where the wait ends, the bytes still are the lines and the buffer. */
  lemma EndsHere(server: Server, deadline: int, start: Reading, n: nat, lines: seq<seq<byte>>)
    requires Bytes(server, start.recvs) == Joined(lines) + start.buffer && After(server, deadline, start, n).Done?
    ensures
      var end := After(server, deadline, start, n);
      && Ends(server, deadline, start) && Final(server, deadline, start) == end
      && Bytes(server, end.recvs) == Joined(lines) + end.buffer
  {
    FinalIs(server, deadline, start, n);
    BufferHoldsBytes(server, deadline, start, n, Joined(lines));
  }
}
