/** How `_getline` of acoustid/indexclient.py waits for a line: against any server, step by
    step. What a server does is an endless stream of answers to select and recv, and two of times;
    nothing says that a wait ever ends. */
module LineReading {
  import opened LineFraming

  /** An answer of recv; no data is the end of the stream. */
  datatype Received = Interrupted | WouldBlock | Broken | Data(data: seq<byte>)

  datatype Selected = SelectInterrupted | SelectFails | InError | Idle | Readable

  /** The answers to the calls of select, recv and sendall, in their order, and two times for
      each call of select, in milliseconds: when it is made and when its round is over. Between
      the end of one round and the next call, which may be that of a later wait, any time may
      pass. */
  datatype Server = Server(select: nat -> Selected, recv: nat -> Received, send: nat -> bool,
                           clock: nat -> int, after: nat -> int)

  const SOCKET_TIMEOUT := 250

  datatype Outcome = Line | Failed | TimedOut

  /** Where `_getline` is: before a select, in the loop of recv, or out. The numbers count the
      calls of select and recv so far. */
  datatype Reading =
    | Waiting(selects: nat, recvs: nat, buffer: seq<byte>)
    | Draining(selects: nat, recvs: nat, buffer: seq<byte>)
    | Done(selects: nat, recvs: nat, buffer: seq<byte>, outcome: Outcome)

  /** The end of a round: too late, even if a line has just arrived, or on to the next. */
  function Checked(server: Server, deadline: int, selects: nat, recvs: nat, buffer: seq<byte>): Reading {
    if server.after(selects) > deadline then Done(selects + 1, recvs, buffer, TimedOut)
    else Waiting(selects + 1, recvs, buffer)
  }

  /** One call of select or recv. An interrupted select goes back without looking at the clock,
      and the loop of recv never looks at it. */
  function Step(server: Server, deadline: int, r: Reading): Reading {
    match r
    case Done(_, _, _, _) => r
    case Waiting(p, q, buffer) =>
      if Find(buffer).Some? then Done(p, q, buffer, Line)
      else (match server.select(p)
            case SelectInterrupted => Waiting(p + 1, q, buffer)
            case SelectFails => Done(p + 1, q, buffer, Failed)
            case InError => Done(p + 1, q, buffer, Failed)
            case Idle => Checked(server, deadline, p, q, buffer)
            case Readable => Draining(p, q, buffer))
    case Draining(p, q, buffer) =>
      match server.recv(q)
      case Interrupted => Draining(p, q + 1, buffer)
      case WouldBlock => Checked(server, deadline, p, q + 1, buffer)
      case Broken => Done(p + 1, q + 1, buffer, Failed)
      case Data(data) =>
        if data == [] then Checked(server, deadline, p, q + 1, buffer) else Draining(p, q + 1, buffer + data)
  }

  function After(server: Server, deadline: int, r: Reading, n: nat): Reading {
    if n == 0 then r else Step(server, deadline, After(server, deadline, r, n - 1))
  }

  ghost predicate Ends(server: Server, deadline: int, r: Reading) {
    exists n: nat :: After(server, deadline, r, n).Done?
  }

  /** Where it ends, if it does. */
  ghost function Final(server: Server, deadline: int, r: Reading): (d: Reading)
    requires Ends(server, deadline, r)
    ensures d.Done?
  {
    var n: nat :| After(server, deadline, r, n).Done?;
    After(server, deadline, r, n)
  }

  lemma {:induction false} DoneStaysDone(server: Server, deadline: int, r: Reading, m: nat, n: nat)
    requires m <= n && After(server, deadline, r, m).Done?
    ensures After(server, deadline, r, n) == After(server, deadline, r, m)
  {
    if m < n {
      DoneStaysDone(server, deadline, r, m, n - 1);
    }
  }

  lemma FinalIs(server: Server, deadline: int, r: Reading, n: nat)
    requires After(server, deadline, r, n).Done?
    ensures Ends(server, deadline, r) && Final(server, deadline, r) == After(server, deadline, r, n)
  {
    var m: nat :| After(server, deadline, r, m).Done? && Final(server, deadline, r) == After(server, deadline, r, m);
    if m <= n {
      DoneStaysDone(server, deadline, r, m, n);
    } else {
      DoneStaysDone(server, deadline, r, n, m);
    }
  }

  lemma {:induction false} AfterAfter(server: Server, deadline: int, r: Reading, m: nat, n: nat)
    ensures After(server, deadline, After(server, deadline, r, m), n) == After(server, deadline, r, m + n)
  {
    hide Step;
    if n > 0 {
      AfterAfter(server, deadline, r, m, n - 1);
    }
  }

  lemma OneStep(server: Server, deadline: int, r: Reading)
    ensures After(server, deadline, r, 1) == Step(server, deadline, r)
  {
    assert After(server, deadline, r, 0) == r;
  }

  // ----- one burst of recv --------------------------------------------------------------------

  predicate Stops(received: Received) {
    received == WouldBlock || received == Broken || received == Data([])
  }

  ghost predicate StopsAfter(server: Server, recvs: nat) {
    exists k: nat :: recvs <= k && Stops(server.recv(k))
  }

  /** While no recv stops it, the burst goes on, whatever the time. */
  lemma {:induction false} StillDraining(server: Server, deadline: int, r: Reading, n: nat)
    requires r.Draining? && forall k: nat :: r.recvs <= k < r.recvs + n ==> !Stops(server.recv(k))
    ensures
      var r' := After(server, deadline, r, n);
      r'.Draining? && r'.selects == r.selects && r'.recvs == r.recvs + n
  {
    if n > 0 {
      StillDraining(server, deadline, r, n - 1);
      assert !Stops(server.recv(r.recvs + n - 1));
    }
  }

  /** The first recv that stops it ends it. */
  lemma {:induction false} FirstStop(server: Server, recvs: nat, k: nat) returns (n: nat)
    requires recvs <= k && Stops(server.recv(k))
    ensures recvs + n <= k && Stops(server.recv(recvs + n))
    ensures forall j: nat :: recvs <= j < recvs + n ==> !Stops(server.recv(j))
    decreases k - recvs
  {
    if Stops(server.recv(recvs)) {
      n := 0;
    } else {
      var m := FirstStop(server, recvs + 1, k);
      n := m + 1;
    }
  }

  lemma DrainEnds(server: Server, deadline: int, r: Reading) returns (n: nat)
    requires r.Draining? && StopsAfter(server, r.recvs)
    ensures
      var r' := After(server, deadline, r, n);
      !r'.Draining? && r'.selects == r.selects + 1
  {
    var k: nat :| r.recvs <= k && Stops(server.recv(k));
    var m := FirstStop(server, r.recvs, k);
    StillDraining(server, deadline, r, m);
    n := m + 1;
  }

  /** The loop of recv ends if and only if some recv finds nothing, the end or an error. */
  lemma DrainEndsIff(server: Server, deadline: int, r: Reading)
    requires r.Draining?
    ensures (exists n: nat :: !After(server, deadline, r, n).Draining?) <==> StopsAfter(server, r.recvs)
  {
    if StopsAfter(server, r.recvs) {
      var n := DrainEnds(server, deadline, r);
    } else {
      forall n: nat
        ensures After(server, deadline, r, n).Draining?
      {
        StillDraining(server, deadline, r, n);
      }
    }
  }

  // ----- rounds ---------------------------------------------------------------------------------

  ghost predicate BurstsEnd(server: Server) {
    (exists p: nat :: server.select(p).Readable?) ==> forall q: nat :: StopsAfter(server, q)
  }

  /** Sooner or later every round is over: the next select comes, or the wait is. */
  lemma RoundEnds(server: Server, deadline: int, r: Reading) returns (n: nat)
    requires BurstsEnd(server) && r.Waiting?
    ensures
      var r' := After(server, deadline, r, n);
      r'.Done? || (r'.Waiting? && r'.selects == r.selects + 1)
    ensures After(server, deadline, r, n).selects <= r.selects + 1
    ensures !server.select(r.selects).SelectInterrupted? && server.after(r.selects) > deadline ==>
              After(server, deadline, r, n).Done?
  {
    hide After, Find, StopsAfter;
    var r1 := Step(server, deadline, r);
    OneStep(server, deadline, r);
    if r1.Draining? {
      assert server.select(r.selects).Readable?;
      var m := DrainEndsInRound(server, deadline, r1);
      AfterAfter(server, deadline, r, 1, m);
      n := 1 + m;
    } else {
      n := 1;
    }
  }

  lemma DrainEndsInRound(server: Server, deadline: int, r: Reading) returns (n: nat)
    requires r.Draining? && StopsAfter(server, r.recvs)
    ensures
      var r' := After(server, deadline, r, n);
      (r'.Done? || r'.Waiting?) && r'.selects == r.selects + 1 && (server.after(r.selects) > deadline ==> r'.Done?)
  {
    var k: nat :| r.recvs <= k && Stops(server.recv(k));
    var m := FirstStop(server, r.recvs, k);
    StillDraining(server, deadline, r, m);
    n := m + 1;
  }

  /** A later round is reached, or the wait is over before it. */
  lemma {:induction false} ReachesRound(server: Server, deadline: int, r: Reading, m: nat) returns (n: nat)
    requires BurstsEnd(server) && r.Waiting? && r.selects <= m
    ensures
      var r' := After(server, deadline, r, n);
      (r'.Done? && r'.selects <= m) || (r'.Waiting? && r'.selects == m)
    decreases m - r.selects
  {
    if r.selects == m {
      n := 0;
    } else {
      var k := RoundEnds(server, deadline, r);
      var r1 := After(server, deadline, r, k);
      if r1.Done? {
        n := k;
      } else {
        var l := ReachesRound(server, deadline, r1, m);
        AfterAfter(server, deadline, r, k, l);
        n := k + l;
      }
    }
  }

  /** The wait is over by the first round past the deadline that is not interrupted. */
  lemma LateRoundIsLast(server: Server, deadline: int, r: Reading, m: nat) returns (n: nat)
    requires BurstsEnd(server) && r.Waiting? && r.selects <= m
    requires !server.select(m).SelectInterrupted? && server.after(m) > deadline
    ensures After(server, deadline, r, n).Done? && After(server, deadline, r, n).selects <= m + 1
  {
    hide Step, After, BurstsEnd;
    var k := ReachesRound(server, deadline, r, m);
    var r1 := After(server, deadline, r, k);
    if r1.Done? {
      n := k;
    } else {
      var l := RoundEnds(server, deadline, r1);
      AfterAfter(server, deadline, r, k, l);
      n := k + l;
    }
  }

  /** Every round takes so long at least; an idle one takes the socket timeout. */
  ghost predicate Paced(server: Server, pace: int) {
    forall p: nat :: server.clock(p) + pace <= server.after(p) <= server.clock(p + 1)
  }

  lemma {:induction false} PacedFurther(server: Server, pace: int, p: nat, k: nat)
    requires Paced(server, pace)
    ensures server.clock(p) + pace * k <= server.clock(p + k)
  {
    if k > 0 {
      PacedFurther(server, pace, p, k - 1);
      assert pace * k == pace * (k - 1) + pace;
      assert server.clock(p + (k - 1)) + pace <= server.after(p + (k - 1)) <= server.clock(p + (k - 1) + 1);
    }
  }

  /** If every burst ends, the number of rounds is bounded by timeout / pace and the
      interrupted rounds that follow: the first round after so many that is not interrupted is
      the last. */
  lemma RoundsAreBounded(server: Server, start: Reading, timeout: nat, pace: int, m: nat) returns (n: nat)
    requires BurstsEnd(server) && start.Waiting? && pace > 0 && Paced(server, pace)
    requires start.selects + timeout / pace <= m && !server.select(m).SelectInterrupted?
    ensures
      var end := After(server, server.clock(start.selects) + timeout, start, n);
      end.Done? && end.selects <= m + 1
  {
    var p := start.selects;
    PacedFurther(server, pace, p, m - p);
    EnoughRounds(timeout, pace, m + 1 - p);
    assert p + (m - p) == m;
    assert pace * (m + 1 - p) == pace * (m - p) + pace;
    n := LateRoundIsLast(server, server.clock(p) + timeout, start, m);
  }

  lemma EnoughRounds(timeout: nat, pace: int, k: nat)
    requires pace > 0 && timeout / pace < k
    ensures timeout < pace * k
  {
    var q := timeout / pace;
    assert timeout == pace * q + timeout % pace;
    assert pace * (q + 1) == pace * q + pace;
    TimesMono(pace, q + 1, k);
  }

  lemma TimesMono(pace: int, x: int, y: int)
    requires pace > 0 && x <= y
    ensures pace * x <= pace * y
  {
  }

  // ----- when the wait ends -----------------------------------------------------------------

  /** Time does not stand still. */
  ghost predicate TimePasses(server: Server) {
    && (forall p: nat :: server.clock(p) <= server.after(p) <= server.clock(p + 1))
    && (forall t: int :: Outlasted(server, t))
  }

  ghost predicate Outlasted(server: Server, t: int) {
    exists p: nat :: server.clock(p) > t
  }

  ghost predicate IsServed(server: Server, p: nat) {
    exists m: nat :: p <= m && !server.select(m).SelectInterrupted?
  }

  /** Every burst ends, and select is not interrupted for ever. */
  ghost predicate Obliging(server: Server) {
    BurstsEnd(server) && forall p: nat :: IsServed(server, p)
  }

  lemma {:induction false} ClockRises(server: Server, p: nat, q: nat)
    requires TimePasses(server) && p <= q
    ensures server.clock(p) <= server.clock(q)
  {
    if p < q {
      ClockRises(server, p, q - 1);
      assert server.clock(q - 1) <= server.after(q - 1) <= server.clock((q - 1) + 1);
    }
  }

  lemma ObligingEnds(server: Server, deadline: int, r: Reading)
    requires Obliging(server) && TimePasses(server) && r.Waiting?
    ensures Ends(server, deadline, r)
  {
    assert Outlasted(server, deadline);
    var late: nat :| server.clock(late) > deadline;
    var from := if late < r.selects then r.selects else late;
    assert IsServed(server, from);
    var m: nat :| from <= m && !server.select(m).SelectInterrupted?;
    ClockRises(server, late, m);
    var n := LateRoundIsLast(server, deadline, r, m);
  }

  ghost predicate EndsFrom(server: Server, p: nat, q: nat, buffer: seq<byte>, timeout: nat) {
    Ends(server, server.clock(p) + timeout, Waiting(p, q, buffer))
  }

  ghost predicate AlwaysEnds(server: Server) {
    forall p: nat, q: nat, buffer: seq<byte>, timeout: nat :: EndsFrom(server, p, q, buffer, timeout)
  }

  /** Against a server under which time passes, `_getline` ends, from wherever it starts and
      with any timeout, if and only if every burst of recv ends (or select never reports data)
      and select is not interrupted for ever. The timeout alone does not see to it. */
  lemma AlwaysEndsIff(server: Server)
    requires TimePasses(server)
    ensures AlwaysEnds(server) <==> Obliging(server)
  {
    hide Ends, TimePasses, BurstsEnd;
    if Obliging(server) {
      forall p: nat, q: nat, buffer: seq<byte>, timeout: nat
        ensures EndsFrom(server, p, q, buffer, timeout)
      {
        ObligingEnds(server, server.clock(p) + timeout, Waiting(p, q, buffer));
      }
    } else if !BurstsEnd(server) {
      var p, q := EndlessBurst(server);
      EndlessBurstNeverEnds(server, server.clock(p) + 0, p, q);
      assert !EndsFrom(server, p, q, [], 0);
    } else {
      var p: nat :| !IsServed(server, p);
      InterruptedForEver(server, server.clock(p) + 0, p, 0);
      assert !EndsFrom(server, p, 0, [], 0);
    }
  }

  lemma EndlessBurst(server: Server) returns (p: nat, q: nat)
    requires !BurstsEnd(server)
    ensures server.select(p).Readable? && !StopsAfter(server, q)
  {
    p :| server.select(p).Readable?;
    q :| !StopsAfter(server, q);
  }

  lemma NoLineYet()
    ensures Find([]).None?
  {
  }

  lemma NeverStops(server: Server, q: nat, n: nat)
    requires !StopsAfter(server, q)
    ensures forall k: nat :: q <= k < q + n ==> !Stops(server.recv(k))
  {
  }

  lemma BurstBegins(server: Server, deadline: int, p: nat, q: nat)
    requires server.select(p).Readable?
    ensures After(server, deadline, Waiting(p, q, []), 1) == Draining(p, q, [])
  {
    NoLineYet();
    OneStep(server, deadline, Waiting(p, q, []));
  }

  lemma StillInBurst(server: Server, deadline: int, p: nat, q: nat, n: nat)
    requires server.select(p).Readable? && !StopsAfter(server, q)
    ensures !After(server, deadline, Waiting(p, q, []), n).Done?
  {
    if n > 0 {
      BurstBegins(server, deadline, p, q);
      NeverStops(server, q, n - 1);
      StillDraining(server, deadline, Draining(p, q, []), n - 1);
      hide After, Stops, StopsAfter;
      assert 1 + (n - 1) == n;
      AfterAfter(server, deadline, Waiting(p, q, []), 1, n - 1);
    }
  }

  lemma EndlessBurstNeverEnds(server: Server, deadline: int, p: nat, q: nat)
    requires server.select(p).Readable? && !StopsAfter(server, q)
    ensures !Ends(server, deadline, Waiting(p, q, []))
  {
    hide After, StopsAfter;
    forall n: nat
      ensures !After(server, deadline, Waiting(p, q, []), n).Done?
    {
      StillInBurst(server, deadline, p, q, n);
    }
  }

  lemma InterruptedForEver(server: Server, deadline: int, p: nat, q: nat)
    requires !IsServed(server, p)
    ensures !Ends(server, deadline, Waiting(p, q, []))
  {
    forall n: nat
      ensures !After(server, deadline, Waiting(p, q, []), n).Done?
    {
      StillInterrupted(server, deadline, p, q, n);
    }
  }

  lemma {:induction false} StillInterrupted(server: Server, deadline: int, p: nat, q: nat, n: nat)
    requires !IsServed(server, p)
    ensures After(server, deadline, Waiting(p, q, []), n) == Waiting(p + n, q, [])
  {
    NoLineYet();
    if n > 0 {
      StillInterrupted(server, deadline, p, q, n - 1);
      assert server.select(p + n - 1).SelectInterrupted?;
    }
  }

  /** A server that always has data ready: after any number of steps, and long after any
      deadline, `_getline` is still in its loop of recv. */
  lemma AlwaysSending(deadline: int, n: nat)
    ensures
      var server := Server(_ => Readable, _ => Data([0]), _ => true, p => p * SOCKET_TIMEOUT, p => (p + 1) * SOCKET_TIMEOUT);
      TimePasses(server) && After(server, deadline, Waiting(0, 0, []), n + 1).Draining?
  {
    var server := Server(_ => Readable, _ => Data([0]), _ => true, p => p * SOCKET_TIMEOUT, p => (p + 1) * SOCKET_TIMEOUT);
    forall t: int
      ensures Outlasted(server, t)
    {
      var p: nat := if t < 0 then 1 else t + 1;
      assert server.clock(p) > t;
    }
    var r, r1 := Waiting(0, 0, []), Draining(0, 0, []);
    BurstBegins(server, deadline, 0, 0);
    assert 1 + n == n + 1;
    AfterAfter(server, deadline, r, 1, n);
    StillDraining(server, deadline, r1, n);
  }

  // ----- the bytes --------------------------------------------------------------------------

  /** The bytes that some calls of recv have given. */
  function Bytes(server: Server, recvs: nat): seq<byte> {
    if recvs == 0 then []
    else
      var last := server.recv(recvs - 1);
      Bytes(server, recvs - 1) + if last.Data? then last.data else []
  }

  /** Whatever the server does and however far it gets, the buffer gains exactly what recv has
      given, in order. */
  lemma {:induction false} BufferHoldsBytes(server: Server, deadline: int, r: Reading, n: nat, before: seq<byte>)
    requires Bytes(server, r.recvs) == before + r.buffer
    ensures
      var r' := After(server, deadline, r, n);
      Bytes(server, r'.recvs) == before + r'.buffer
  {
    if n > 0 {
      BufferHoldsBytes(server, deadline, r, n - 1, before);
      OneStepKeepsBytes(server, deadline, After(server, deadline, r, n - 1), before);
    }
  }

  lemma OneStepKeepsBytes(server: Server, deadline: int, r: Reading, before: seq<byte>)
    requires Bytes(server, r.recvs) == before + r.buffer
    ensures
      var r' := Step(server, deadline, r);
      Bytes(server, r'.recvs) == before + r'.buffer
  {
    if r.Draining? {
      var received := server.recv(r.recvs);
      assert Bytes(server, r.recvs + 1) == Bytes(server, r.recvs) + if received.Data? then received.data else [];
      if received.Data? {
        assert before + r.buffer + received.data == before + (r.buffer + received.data);
      } else {
        assert before + r.buffer + [] == before + r.buffer;
      }
    }
  }
}
