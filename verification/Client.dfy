/** The IPC client of `client.cc` (non-Apple release build, with a factory and a launcher). The
    server, the launcher and the operating system may answer in any way; every answer is
    recorded in the ghost field `log`, and each method says exactly what it adds there. */
module Client {
  import opened ClientProtocol
  import opened Hiding
  import opened Wrappers

  class Client {
    var status: Status
    var id: nat
    var serverProtocolVersion: nat
    var serverProductVersion: int
    var serverProcessId: nat
    var historyInputs: seq<Input>
    var preferences: Option<string>
    var request: Option<string>
    // Everything that happened, the inputs it leaves to be replayed, and the open session.
    ghost var log: seq<Event>
    ghost var since: seq<Input>
    ghost var session: nat

    ghost predicate JournalValid()
      reads this
    {
      Journal(historyInputs, since, MAX_PLAY_BACK_SIZE)
    }

    ghost predicate Valid()
      reads this
    {
      History(log, since, session) && JournalValid() && id == session
    }

    constructor ()
      ensures Valid() && status == ServerUnknown && id == 0 && historyInputs == [] && log == []
    {
      status, id := ServerUnknown, 0;
      serverProtocolVersion, serverProductVersion, serverProcessId := 0, MOZC_VERSION, 0;
      historyInputs, preferences, request := [], None, None;
      log, since, session := [], [], 0;
      JournalEmpty(MAX_PLAY_BACK_SIZE);
    }

    // ---- Surroundings ----

    ghost method RecordCall(input: Input, x: Exchange)
      requires History(log, since, session) && InSession(session, Called(input, x))
      modifies `log, `session
      ensures log == old(log) + [Called(input, x)] && History(log, since, session)
      ensures session == SessionStep(old(session), Called(input, x))
    {
      HistoryStep(log, since, session, Called(input, x));
      log, session := log + [Called(input, x)], SessionStep(session, Called(input, x));
    }

    // An event that is neither a call nor an entry of the journal.
    predicate Aside(e: Event) {
      e.Pinged? || e.Started? || e.Terminated? || e.Waited? || e.ReportedFatal?
    }

    ghost method RecordAside(e: Event)
      requires History(log, since, session) && Aside(e)
      modifies `log
      ensures log == old(log) + [e] && History(log, since, session)
    {
      HistoryStep(log, since, session, e);
      log := log + [e];
    }

    method StartServer() returns (ok: bool)
      requires History(log, since, session)
      modifies `log
      ensures log == old(log) + [Started(ok)] && History(log, since, session)
    {
      ok := *;
      RecordAside(Started(ok));
    }

    method ForceTerminateServer() returns (ok: bool)
      requires History(log, since, session)
      modifies `log
      ensures log == old(log) + [Terminated(ok)] && History(log, since, session)
    {
      ok := *;
      RecordAside(Terminated(ok));
    }

    method WaitServer(pid: nat) returns (ok: bool)
      requires History(log, since, session)
      modifies `log
      ensures log == old(log) + [Waited(pid, ok)] && History(log, since, session)
    {
      ok := *;
      RecordAside(Waited(pid, ok));
    }

    method OnFatal(error: ErrorType)
      requires History(log, since, session)
      modifies `log
      ensures log == old(log) + [ReportedFatal(error)] && History(log, since, session)
    {
      RecordAside(ReportedFatal(error));
    }

    // ---- Calls ----

    function InitInput(kind: CommandType, payload: string): Input
      reads this
    {
      Input(id, kind, payload, preferences)
    }

    // A dead client does not call. Otherwise there is one exchange, which decides the rest.
    method Call(input: Input) returns (ok: bool, output: Output, ghost x: Option<Exchange>)
      requires History(log, since, session) && (status.Dead() || InSession(session, Called(input, NoClient)))
      modifies `status, `serverProtocolVersion, `serverProductVersion, `serverProcessId, `log, `session
      ensures History(log, since, session)
      ensures x.None? <==> old(status).Dead()
      ensures log == old(log) + CallEvents(input, x)
      ensures ok <==> x.Some? && x.value.Answered()
      ensures ok ==> output == x.value.reply.output
      ensures x.None? ==> status == old(status) && serverProtocolVersion == old(serverProtocolVersion)
                          && serverProductVersion == old(serverProductVersion) && serverProcessId == old(serverProcessId)
      ensures x.Some? ==> status == StatusAfter(old(status), x.value) && serverProtocolVersion == x.value.Protocol()
                          && serverProductVersion == x.value.Product() && serverProcessId == x.value.Pid()
      ensures session == if x.Some? then SessionStep(old(session), Called(input, x.value)) else old(session)
      ensures x.Some? ==> match x.value
        case NoClient => !ok && status == ServerFatal
        case NotConnected => !ok && status == if old(status) == ServerUnknown then ServerUnknown else ServerShutdown
        case Connected(protocol, product, pid, reply) =>
          && serverProtocolVersion == protocol && serverProductVersion == product && serverProcessId == pid
          && if protocol != 3 then !ok && status == old(status)
             else match reply
               case IpcTimeout => !ok && status == ServerTimeout
               case IpcError => !ok && status == ServerShutdown
               case Unparsable => !ok && status == ServerBrokenMessage
               case Answer(answer) => ok && output == answer && status == old(status)
    {
      output := *;
      if status.Dead() {
        x := None;
        return false, output, x;
      }
      var exchange: Exchange := *;
      x := Some(exchange);
      RecordCall(input, exchange);
      serverProtocolVersion := IPC_PROTOCOL_VERSION;
      serverProductVersion := MOZC_VERSION;
      serverProcessId := 0;
      match exchange {
        case NoClient =>
          status := ServerFatal;
          return false, output, x;
        case NotConnected =>
          if !status.ServerUnknown? {
            status := ServerShutdown;
          }
          return false, output, x;
        case Connected(protocol, product, pid, reply) =>
          serverProtocolVersion := protocol;
          serverProductVersion := product;
          serverProcessId := pid;
          if serverProtocolVersion != IPC_PROTOCOL_VERSION {
            return false, output, x;
          }
          match reply {
            case IpcTimeout =>
              status := ServerTimeout;
              return false, output, x;
            case IpcError =>
              status := ServerShutdown;
              return false, output, x;
            case Unparsable =>
              status := ServerBrokenMessage;
              return false, output, x;
            case Answer(answer) =>
              return true, answer, x;
          }
      }
    }

    method CallAndCheckVersion(input: Input) returns (ok: bool, output: Output, ghost x: Option<Exchange>)
      requires Valid() && input.id == id && !input.kind.CreateSession? && !input.kind.DeleteSession?
      modifies `status, `serverProtocolVersion, `serverProductVersion, `serverProcessId, `log, `session
      ensures Valid() && x.None? == old(status).Dead() && log == old(log) + CallEvents(input, x)
      ensures ok <==> x.Some? && x.value.Answered()
      ensures ok ==> output == x.value.reply.output && status == old(status)
      ensures !ok ==> status == if serverProtocolVersion != IPC_PROTOCOL_VERSION then ServerVersionMismatch
                                else if x.Some? then StatusAfter(old(status), x.value) else old(status)
      ensures serverProtocolVersion == if x.Some? then x.value.Protocol() else old(serverProtocolVersion)
    {
      ok, output, x := Call(input);
      if !ok && serverProtocolVersion != IPC_PROTOCOL_VERSION {
        status := ServerVersionMismatch;
      }
    }

    method CallCommand(kind: CommandType) returns (ok: bool, ghost x: Option<Exchange>)
      requires Valid() && !kind.CreateSession? && !kind.DeleteSession?
      modifies `status, `serverProtocolVersion, `serverProductVersion, `serverProcessId, `log, `session
      ensures Valid() && x.None? == old(status).Dead() && log == old(log) + CallEvents(Input(id, kind, "", preferences), x)
      ensures ok <==> x.Some? && x.value.Answered()
      ensures status == if x.Some? then StatusAfter(old(status), x.value) else old(status)
      ensures serverProcessId == if x.Some? then x.value.Pid() else old(serverProcessId)
    {
      var output;
      ok, output, x := Call(InitInput(kind, ""));
    }

    // Waits for the server whether or not the command reached it.
    method Shutdown() returns (ok: bool, ghost x: Option<Exchange>)
      requires Valid()
      modifies `status, `serverProtocolVersion, `serverProductVersion, `serverProcessId, `log, `session
      ensures Valid() && x.None? == old(status).Dead()
      ensures log == old(log) + CallEvents(Input(id, ShutdownServer, "", preferences), x) + [Waited(serverProcessId, ok)]
      ensures serverProcessId == if x.Some? then x.value.Pid() else old(serverProcessId)
      ensures status == if x.Some? then StatusAfter(old(status), x.value) else old(status)
    {
      var called;
      called, x := CallCommand(ShutdownServer);
      ok := WaitServer(serverProcessId);
    }

    // ---- Connection ----

    method EnsureConnection() returns (ok: bool)
      requires Valid()
      modifies `status, `log
      ensures Valid()
      ensures ok <==> status.ServerOk? || status.ServerInvalidSession?
      ensures !ok <==> status.ServerFatal?
      ensures log == old(log) + ConnectEvents(old(status), ok)
      ensures old(status).Connected() || old(status).ServerFatal? ==> status == old(status)
      ensures old(status).Dead() ==> !ok
      ensures ok && !old(status).Connected() ==> status.ServerInvalidSession?
      ensures log == old(log) + match old(status)
        case ServerTimeout => [ReportedFatal(FatalTimeout)]
        case ServerBrokenMessage => [ReportedFatal(FatalBrokenMessage)]
        case ServerVersionMismatch => [ReportedFatal(FatalVersionMismatch)]
        case ServerUnknown => if ok then [Started(true)] else [Started(false), ReportedFatal(FatalServerFatal)]
        case ServerShutdown => if ok then [Started(true)] else [Started(false), ReportedFatal(FatalServerFatal)]
        case _ => []
    {
      match status {
        case ServerOk =>
          return true;
        case ServerInvalidSession =>
          return true;
        case ServerFatal =>
          return false;
        case ServerTimeout =>
          OnFatal(FatalTimeout);
          status := ServerFatal;
          return false;
        case ServerBrokenMessage =>
          OnFatal(FatalBrokenMessage);
          status := ServerFatal;
          return false;
        case ServerVersionMismatch =>
          OnFatal(FatalVersionMismatch);
          status := ServerFatal;
          return false;
        case _ =>
          var started := StartServer();
          if started {
            status := ServerInvalidSession;
            return true;
          } else {
            OnFatal(FatalServerFatal);
            status := ServerFatal;
            return false;
          }
      }
    }

    // ---- Versions ----

    method StartAgain() returns (ok: bool, ghost start: seq<Event>)
      requires Valid()
      modifies `status, `log
      ensures Valid() && log == old(log) + start && IsStart(start, ok)
      ensures status == if ok then ServerInvalidSession else ServerVersionMismatch
    {
      status := ServerUnknown;
      ok := EnsureConnection();
      start := if ok then [Started(true)] else [Started(false), ReportedFatal(FatalServerFatal)];
      if !ok {
        status := ServerVersionMismatch;
      }
    }

    method ForceRestart() returns (ok: bool, ghost restart: seq<Event>)
      requires Valid()
      modifies `status, `log
      ensures Valid() && log == old(log) + restart && IsForced(restart, ok) && restart != []
      ensures status == RestartStatus(restart, ok)
    {
      var terminated := ForceTerminateServer();
      if !terminated {
        status := ServerBrokenMessage;
        return false, [Terminated(false)];
      }
      var waited := WaitServer(serverProcessId);
      ghost var start;
      ok, start := StartAgain();
      restart := [Terminated(true), Waited(serverProcessId, waited)] + start;
      ForcedShape(serverProcessId, waited, start, ok);
    }

    // Replaces an outdated server: asks it to shut down if it understands the request, terminates
    // it if not or if it stays, and starts it anew.
    method RestartServer(callResult: bool) returns (ok: bool, ghost restart: seq<Event>)
      requires Valid() && (callResult ==> !status.Dead())
      modifies `status, `serverProtocolVersion, `serverProductVersion, `serverProcessId, `log, `session
      ensures Valid() && log == old(log) + restart && IsRestart(restart, callResult, ok) && restart != []
      ensures status == RestartStatus(restart, ok)
    {
      if !callResult {
        ok, restart := ForceRestart();
        return;
      }
      ghost var x, rest;
      var shutdownResult;
      shutdownResult, x := Shutdown();
      ghost var asked := [Called(Input(id, ShutdownServer, "", preferences), x.value), Waited(serverProcessId, shutdownResult)];
      ghost var pid := serverProcessId;
      if !shutdownResult {
        ok, rest := ForceRestart();
      } else {
        ok, rest := StartAgain();
      }
      restart := asked + rest;
      CompatibleShape(Input(id, ShutdownServer, "", preferences), x.value, pid, shutdownResult, rest, ok);
    }

    // The request for a session, or the check that names no session.
    predicate Checks(input: Input)
      reads this
    {
      input.id == 0 && if input.kind.CreateSession? then id == 0 && !status.Dead() else input.kind.NoOperation?
    }

    // What follows each call: a newer server is refused, an outdated one is to be restarted.
    method JudgeCall(callResult: bool) returns (verdict: Verdict)
      modifies `status
      ensures verdict ==
        if callResult && serverProductVersion >= MOZC_VERSION then Accept
        else if callResult then Restart(true)
        else if serverProtocolVersion > IPC_PROTOCOL_VERSION then Reject(ServerVersionMismatch)
        else if serverProtocolVersion < IPC_PROTOCOL_VERSION then Restart(false)
        else Reject(old(status))
      ensures status == if verdict.Reject? then verdict.status else old(status)
    {
      if !callResult && serverProtocolVersion > IPC_PROTOCOL_VERSION {
        status := ServerVersionMismatch;
        return Reject(status);
      }
      var versionUpgraded := serverProductVersion < MOZC_VERSION;
      if (callResult && versionUpgraded) || (!callResult && serverProtocolVersion < IPC_PROTOCOL_VERSION) {
        return Restart(callResult);
      }
      if !callResult {
        return Reject(status);
      }
      return Accept;
    }

    // One attempt of the version check: a call, and the verdict on it.
    method Attempt(input: Input) returns (verdict: Verdict, output: Output, ghost x: Option<Exchange>)
      requires History(log, since, session) && Checks(input) && (input.kind.CreateSession? || id == session)
      modifies `status, `serverProtocolVersion, `serverProductVersion, `serverProcessId, `log, `session
      ensures History(log, since, session) && x.None? == old(status).Dead() && log == old(log) + CallEvents(input, x)
      ensures verdict == Judge(old(status), x, ProtocolSeen(x, old(serverProtocolVersion)))
      ensures verdict.Accept? ==> x.Some? && output == x.value.reply.output && status == old(status)
      ensures verdict.Reject? ==> status == verdict.status
      ensures verdict == Restart(true) ==> !status.Dead()
      ensures session == if !input.kind.CreateSession? then old(session)
                         else if verdict.Accept? && output.sessionSuccess then output.id else 0
    {
      var called;
      called, output, x := Call(input);
      verdict := JudgeCall(called);
    }

    method CheckVersionOrRestartServerInternal(input: Input)
      returns (ok: bool, output: Output, ghost x1: Option<Exchange>, ghost restart: seq<Event>, ghost x2: Option<Exchange>)
      requires History(log, since, session) && JournalValid() && Checks(input) && (input.kind.CreateSession? || id == session)
      modifies `status, `serverProtocolVersion, `serverProductVersion, `serverProcessId, `log, `session
      ensures History(log, since, session)
      ensures x1.None? == old(status).Dead()
      ensures log == old(log) + CallEvents(input, x1) + restart + CallEvents(input, x2)
      ensures IsCheck(old(status), old(serverProtocolVersion), x1, restart, x2, ok, status)
      ensures ok ==> output == (if x2.Some? then x2 else x1).value.reply.output
      ensures ok && input.kind.CreateSession? ==> session == if output.sessionSuccess then output.id else 0
      ensures !ok || !input.kind.CreateSession? ==> session == id
    {
      x1, restart, x2 := None, [], None;
      output := *;
      var trial := 0;
      while trial < 2
        invariant trial <= 1 && History(log, since, session) && (trial == 1 ==> id == session)
        invariant trial == 0 ==> log == old(log) && status == old(status) && session == old(session) && restart == [] && x2.None?
        invariant trial == 0 ==> serverProtocolVersion == old(serverProtocolVersion)
        invariant trial == 1 ==> x1.None? == old(status).Dead() && log == old(log) + CallEvents(input, x1) + restart
        invariant trial == 1 ==> status == ServerInvalidSession && restart != [] && x2.None?
        invariant trial == 1 ==>
          var v := Judge(old(status), x1, ProtocolSeen(x1, old(serverProtocolVersion)));
          v.Restart? && IsRestart(restart, v.compatible, true)
      {
        ghost var x;
        var verdict;
        verdict, output, x := Attempt(input);
        if trial == 0 {
          x1 := x;
        } else {
          x2 := x;
        }
        if verdict.Restart? {
          if trial > 0 {
            status := ServerBrokenMessage;
            return false, output, x1, restart, x2;
          }
          ok, restart := RestartServer(verdict.compatible);
          if !ok {
            return;
          }
          trial := trial + 1;
          continue;
        }
        return verdict.Accept?, output, x1, restart, x2;
      }
      assert false;
    }

    // An error found by the check is reported at once, unless a server can be started after all.
    method CheckVersionOrRestartServer() returns (ok: bool, ghost events: seq<Event>)
      requires Valid()
      modifies `status, `serverProtocolVersion, `serverProductVersion, `serverProcessId, `log, `session
      ensures Valid() && log == old(log) + events
      ensures !ok ==> status.ServerFatal?
      ensures ok ==>
        || status.Connected()
        || (status == old(status) && events != [] && events[|events| - 1].Called? && events[|events| - 1].exchange.Current())
    {
      var output;
      ghost var x1, restart, x2;
      ok, output, x1, restart, x2 := CheckVersionOrRestartServerInternal(Input(0, NoOperation, "", None));
      CheckOutcome(old(status), old(serverProtocolVersion), x1, restart, x2, ok, status);
      events := log[|old(log)|..];
      if !ok {
        ghost var before := status;
        ok := EnsureConnection();
        events := events + ConnectEvents(before, ok);
      }
    }

    // ---- Sessions ----

    // A session is open afterwards only if a server that is not outdated has granted it.
    method CreateNewSession() returns (ok: bool, ghost events: seq<Event>)
      requires Valid() && status.ServerInvalidSession?
      modifies `id, `status, `serverProtocolVersion, `serverProductVersion, `serverProcessId, `log, `session
      ensures Valid() && log == old(log) + events && events != [] && AllQuiet(events)
      ensures !status.ServerOk?
      ensures ok ==> status.ServerInvalidSession? && GrantsSession(events, id, None)
      ensures !ok ==> id == 0
    {
      id := 0;
      var output;
      ghost var x1, restart, x2;
      ghost var input := Input(0, CreateSession, "", None);
      ok, output, x1, restart, x2 := CheckVersionOrRestartServerInternal(Input(0, CreateSession, "", None));
      CheckOutcome(old(status), old(serverProtocolVersion), x1, restart, x2, ok, status);
      CheckIsQuiet(old(status), old(serverProtocolVersion), x1, restart, x2, ok, status, input);
      events := CallEvents(input, x1) + restart + CallEvents(input, x2);
      if !ok {
        return;
      }
      if !output.sessionSuccess {
        status := ServerInvalidSession;
        return false, events;
      }
      id := output.id;
      Granted(log[|old(log)|..|log| - 1], (if x2.Some? then x2 else x1).value);
    }

    // The part of EnsureSession that follows once the client is connected without a session.
    method OpenSession(ghost before: seq<Event>) returns (ok: bool, ghost events: seq<Event>)
      requires Valid() && status.ServerInvalidSession? && AllQuiet(before)
      modifies `id, `status, `serverProtocolVersion, `serverProductVersion, `serverProcessId, `log, `session
      ensures Valid() && before <= events && AllQuiet(events) && log == old(log) + events[|before|..]
      ensures if ok then status.ServerOk? else status.ServerInvalidSession? || status.ServerFatal?
      ensures ok ==> GrantsSession(events, id, request)
    {
      ghost var created;
      ok, created := CreateNewSession();
      events := before + created;
      QuietConcat(before, created);
      if !ok {
        ghost var left := status;
        var connected := EnsureConnection();
        ConnectIsQuiet(left, connected);
        QuietConcat(events, ConnectEvents(left, connected));
        events := events + ConnectEvents(left, connected);
        return;
      }
      if request.Some? {
        var called, output;
        ghost var x;
        called, output, x := Call(Input(id, SetRequest, request.value, None));
        CallIsQuiet(Input(id, SetRequest, request.value, None), x);
        QuietConcat(events, CallEvents(Input(id, SetRequest, request.value, None), x));
        events := events + CallEvents(Input(id, SetRequest, request.value, None), x);
        GrantedThenRequest(before, created, id, request.value, x.value);
      } else {
        GrantedAfter(before, created, id);
      }
      status := ServerOk;
    }

    method EnsureSession() returns (ok: bool, ghost events: seq<Event>)
      requires Valid()
      modifies `id, `status, `serverProtocolVersion, `serverProductVersion, `serverProcessId, `log, `session
      ensures Valid() && log == old(log) + events && AllQuiet(events)
      ensures ok ==> status.ServerOk?
      ensures !ok ==> status.ServerInvalidSession? || status.ServerFatal?
      ensures old(status).ServerOk? ==> ok && events == [] && id == old(id)
      ensures old(status).ServerFatal? ==> status.ServerFatal? && events == [] && id == old(id)
      ensures ok && !old(status).ServerOk? ==> GrantsSession(events, id, request)
    {
      var connected := EnsureConnection();
      events := ConnectEvents(old(status), connected);
      ConnectIsQuiet(old(status), connected);
      if !connected {
        return false, events;
      }
      if status.ServerOk? {
        return true, events;
      }
      ok, events := OpenSession(events);
    }

    // Deletes the session on the server; the client forgets it only if the server answers.
    method DeleteOpenSession() returns (ok: bool, ghost x: Option<Exchange>)
      requires Valid()
      modifies `id, `status, `serverProtocolVersion, `serverProductVersion, `serverProcessId, `log, `session
      ensures Valid() && log == old(log) + CallEvents(Input(old(id), DeleteSession, "", preferences), x)
      ensures x.None? <==> old(id) == 0 || old(status).Dead()
      ensures ok <==> old(id) == 0 || (x.Some? && x.value.Answered())
      ensures id == if ok then 0 else old(id)
      ensures status == if x.Some? then StatusAfter(old(status), x.value) else old(status)
    {
      x := None;
      if id == 0 {
        return true, x;
      }
      var output;
      ok, output, x := Call(InitInput(DeleteSession, ""));
      if !ok {
        return;
      }
      id := 0;
    }

    // ---- Journal ----

    method ResetHistory()
      requires History(log + [Forgotten], [], session)
      modifies `historyInputs, `log, `since
      ensures History(log, since, session) && log == old(log) + [Forgotten]
      ensures historyInputs == [] && since == [] && JournalValid()
    {
      historyInputs := [];
      JournalEmpty(MAX_PLAY_BACK_SIZE);
      log, since := log + [Forgotten], [];
    }

    ghost method RecordAccepted(input: Input, output: Output)
      requires History(log, since, session) && EndsWithAnswer(log, input, output) && !Commits(Accepted(input, output))
      modifies `log, `since
      ensures History(log, since, session) && log == old(log) + [Accepted(input, output)]
      ensures since == SinceStep(old(since), Accepted(input, output))
    {
      HistoryStep(log, since, session, Accepted(input, output));
      log, since := log + [Accepted(input, output)], SinceStep(since, Accepted(input, output));
    }

    // Remembers a consumed input while there is room, and forgets everything at a context boundary.
    method PushHistory(input: Input, output: Output)
      requires Valid() && UserCommand(input.kind) && EndsWithAnswer(log, input, output)
      modifies `historyInputs, `log, `since
      ensures Valid()
      ensures log == old(log) + AcceptEvents(input, output)
      ensures log == old(log) + [Accepted(input, output)]
                     + if input.kind.SendKey? && output.consumed && output.hasResult then [Forgotten] else []
      ensures since == if !output.consumed then old(since)
                       else if input.kind.SendKey? && output.hasResult then [] else old(since) + [input]
      ensures historyInputs == if !output.consumed then old(historyInputs)
                               else if input.kind.SendKey? && output.hasResult then []
                               else old(historyInputs) + if |old(historyInputs)| < 512 then [input] else []
    {
      if !output.consumed {
        RecordAccepted(input, output);
        return;
      }
      JournalPush(historyInputs, old(since), MAX_PLAY_BACK_SIZE, input);
      if |historyInputs| < MAX_PLAY_BACK_SIZE {
        historyInputs := historyInputs + [input];
      }
      if input.kind.SendKey? && output.hasResult {
        CommitStep(log, since, session, input, output);
        log := log + [Accepted(input, output)];
        ResetHistory();
      } else {
        RecordAccepted(input, output);
      }
    }

    // Sends one entry of the journal again, in the open session.
    method PlayOne(i: nat) returns (ok: bool, ghost e: Event)
      requires Valid() && !status.Dead() && i < |historyInputs| == |since|
      modifies `status, `serverProtocolVersion, `serverProductVersion, `serverProcessId, `historyInputs, `log, `session
      ensures Valid() && |historyInputs| == old(|historyInputs|)
      ensures e.Called? && UserCommand(e.input.kind) && e.input == since[i].(id := id) && log == old(log) + [e] && ok == e.exchange.Answered()
      ensures ok ==> status == old(status)
    {
      JournalEntry(historyInputs, since, MAX_PLAY_BACK_SIZE, i, id);
      historyInputs := historyInputs[i := historyInputs[i].(id := id)];
      var output;
      ghost var x;
      ok, output, x := Call(historyInputs[i]);
      e := Called(historyInputs[i], x.value);
    }

    // Replays the journal in the open session. A journal that has reached its capacity may be
    // incomplete, so it is dropped instead.
    method PlaybackHistory() returns (ghost sent: seq<Event>)
      requires Valid() && !status.Dead()
      modifies `status, `serverProtocolVersion, `serverProductVersion, `serverProcessId, `historyInputs, `log, `since, `session
      ensures Valid() && log == old(log) + sent
      ensures |old(since)| >= MAX_PLAY_BACK_SIZE ==> sent == [Forgotten] && since == [] && status == old(status)
      ensures |old(since)| < MAX_PLAY_BACK_SIZE ==> since == old(since) && IsReplay(sent, since, id)
      ensures AllCalls(sent)
      ensures status.Dead() ==> sent != [] && IsFailure(sent[|sent| - 1])
    {
      JournalLength(historyInputs, since, MAX_PLAY_BACK_SIZE);
      if |historyInputs| >= MAX_PLAY_BACK_SIZE {
        HistoryStep(log, since, session, Forgotten);
        ResetHistory();
        return [Forgotten];
      }
      sent := [];
      var i := 0;
      while i < |historyInputs|
        invariant Valid() && !status.Dead() && i <= |historyInputs| == |since| && |sent| == i && log == old(log) + sent
        invariant since == old(since)
        invariant ReplaySoFar(sent, since, id)
      {
        var ok;
        ghost var e;
        ok, e := PlayOne(i);
        ReplayMore(sent, since, id, e);
        sent := sent + [e];
        if !ok {
          ReplayIsCalls(sent, since, id);
          return;
        }
        i := i + 1;
      }
      ReplayDone(sent, since, id);
      ReplayIsCalls(sent, since, id);
    }

    // ---- Commands ----

    // The second trial in the session that was reopened: the journal is replayed first.
    method TryAgain(kind: CommandType, payload: string, ghost before: seq<Event>, ghost reopened: seq<Event>)
      returns (ok: bool, output: Output, ghost replay: seq<Event>, ghost second: Option<Exchange>)
      requires Valid() && UserCommand(kind) && !status.Dead() && log == before + reopened && EndsLost(before)
      requires AllQuiet(reopened) && GrantsSession(reopened, id, request)
      modifies `status, `serverProtocolVersion, `serverProductVersion, `serverProcessId, `historyInputs, `log, `since, `session
      ensures Valid()
      ensures if |old(since)| < MAX_PLAY_BACK_SIZE then IsReplay(replay, old(since), id) else replay == [Forgotten]
      ensures log == before + (reopened + (replay + CallEvents(Input(id, kind, payload, preferences), second)))
                     + if ok then [] else [Forgotten]
      ensures ok <==> second.Some? && second.value.Answered()
      ensures ok ==> output == second.value.reply.output && EndsWithAnswer(log, Input(id, kind, payload, preferences), output)
      ensures ok ==> since == if |old(since)| < MAX_PLAY_BACK_SIZE then old(since) else []
      ensures !ok ==> historyInputs == [] && since == []
    {
      replay := PlaybackHistory();
      var input := InitInput(kind, payload);
      ok, output, second := CallAndCheckVersion(input);
      RetrialAppended(before, reopened, replay, CallEvents(input, second));
      if !ok {
        FailureForgets(before, reopened, id, request, replay, input, second, log, since, session);
        historyInputs := historyInputs + [input];
        ResetHistory();
      }
    }

    method Retry(kind: CommandType, payload: string) returns (ok: bool, output: Output, ghost t: Retrial)
      requires Valid() && UserCommand(kind) && (status.ServerShutdown? || status.ServerInvalidSession?) && EndsLost(log)
      modifies this
      ensures Valid() && preferences == old(preferences) && request == old(request)
      ensures IsRetrial(t, old(since), id, request, MAX_PLAY_BACK_SIZE)
      ensures log == old(log) + RetrialEvents(t, Input(id, kind, payload, preferences))
                     + if t.Retried? && !ok then [Forgotten] else []
      ensures ok <==> t.Retried? && t.second.Some? && t.second.value.Answered()
      ensures ok ==> output == t.second.value.reply.output && EndsWithAnswer(log, Input(id, kind, payload, preferences), output)
      ensures ok ==> since == if |old(since)| < MAX_PLAY_BACK_SIZE then old(since) else []
      ensures !ok ==> if t.Retried? then historyInputs == [] && since == []
                      else historyInputs == old(historyInputs) && since == old(since)
                           && (status.ServerInvalidSession? || status.ServerFatal?)
    {
      output := *;
      ghost var reopened;
      ok, reopened := EnsureSession();
      if !ok {
        t := NoSession(reopened);
        return;
      }
      ghost var replay, second;
      ok, output, replay, second := TryAgain(kind, payload, old(log), reopened);
      t := Retried(reopened, replay, second);
    }

    method FirstTrial(kind: CommandType, payload: string)
      returns (hasSession: bool, ok: bool, output: Output, ghost t: Command)
      requires Valid() && UserCommand(kind)
      modifies `id, `status, `serverProtocolVersion, `serverProductVersion, `serverProcessId, `log, `session
      ensures Valid() && log == old(log) + t.prepared + CallEvents(Input(id, kind, payload, preferences), t.first)
      ensures IsFirstTrial(t.prepared, t.id, t.first, t.between, old(status), old(id), request)
      ensures t.id == id && t.between == status && t.retrial.None?
      ensures hasSession <==> t.first.Some?
      ensures ok <==> t.first.Some? && t.first.value.Answered()
      ensures ok ==> output == t.first.value.reply.output
      ensures ok ==> EndsWithAnswer(log, Input(id, kind, payload, preferences), output)
      ensures hasSession && (status.ServerShutdown? || status.ServerInvalidSession?) ==> EndsLost(log)
    {
      output := *;
      ghost var prepared;
      ghost var first: Option<Exchange> := None;
      hasSession, prepared := EnsureSession();
      ok := false;
      if hasSession {
        var input := InitInput(kind, payload);
        ok, output, first := CallAndCheckVersion(input);
        if ok && output.id != input.id {
          status := ServerInvalidSession;
        }
      }
      t := Command(prepared, id, first, status, None);
    }

    method RetryIfLost(kind: CommandType, payload: string, answer: Output)
      returns (ok: bool, output: Output, ghost t: Option<Retrial>)
      requires Valid() && UserCommand(kind) && !status.Dead()
      requires if status.ServerShutdown? || status.ServerInvalidSession? then EndsLost(log)
               else EndsWithAnswer(log, InitInput(kind, payload), answer)
      modifies this
      ensures Valid() && preferences == old(preferences) && request == old(request)
      ensures t.Some? <==> old(status).ServerShutdown? || old(status).ServerInvalidSession?
      ensures ok ==> EndsWithAnswer(log, Input(id, kind, payload, preferences), output)
      ensures t.None? ==> ok && output == answer && status == old(status) && since == old(since) && id == old(id)
      ensures t.Some? ==>
        && IsRetrial(t.value, old(since), id, request, MAX_PLAY_BACK_SIZE)
        && (ok <==> t.value.Retried? && t.value.second.Some? && t.value.second.value.Answered())
        && (ok ==> output == t.value.second.value.reply.output)
        && since == if (ok && |old(since)| < MAX_PLAY_BACK_SIZE) || t.value.NoSession? then old(since) else []
      ensures var input := Input(id, kind, payload, preferences);
        log == old(log) + RetrialPart(t, input) + if ok then [] else EndEvents(t, input, false, output)
    {
      ok, output, t := true, answer, None;
      if status.ServerShutdown? || status.ServerInvalidSession? {
        ghost var retrial;
        ok, output, retrial := Retry(kind, payload);
        t := Some(retrial);
      }
    }

    // The two trials and what is recorded, in terms of the inputs to be replayed.
    method SendUserCommand(kind: CommandType, payload: string) returns (ok: bool, output: Output, ghost t: Command)
      requires Valid() && UserCommand(kind)
      modifies this
      ensures Valid() && preferences == old(preferences) && request == old(request)
      ensures log == old(log) + t.prepared + CallEvents(Input(t.id, kind, payload, preferences), t.first)
                     + RetrialPart(t.retrial, Input(id, kind, payload, preferences))
                     + EndEvents(t.retrial, Input(id, kind, payload, preferences), ok, output)
      ensures IsFirstTrial(t.prepared, t.id, t.first, t.between, old(status), old(id), request)
      ensures IsCommand(t, old(since), id, request, MAX_PLAY_BACK_SIZE, ok, output)
      ensures t.retrial.None? ==> status == t.between
      ensures t.retrial.Some? <==> t.first.Some? && SessionLost(t.first.value, t.id)
      ensures t.first.None? ==> historyInputs == old(historyInputs)
      ensures since
           == SinceCommand(t.retrial, old(since), MAX_PLAY_BACK_SIZE, Input(id, kind, payload, preferences), ok, output)
    {
      var hasSession;
      hasSession, ok, output, t := FirstTrial(kind, payload);
      if !hasSession || status.Dead() {
        return false, output, t;
      }
      ghost var first := log;
      ghost var retrial;
      ok, output, retrial := RetryIfLost(kind, payload, output);
      t := Command(t.prepared, t.id, t.first, t.between, retrial);
      if ok {
        assert log == first + RetrialPart(retrial, Input(id, kind, payload, preferences));
        PushHistory(InitInput(kind, payload), output);
      }
    }

    // Sends a command in the open session, opening one if need be. If the session turns out to be
    // lost, the command is tried once more in a new session that the journal brings up to date.
    method EnsureCallCommand(kind: CommandType, payload: string) returns (ok: bool, output: Output, ghost t: Command)
      requires Valid() && UserCommand(kind)
      modifies this
      ensures Valid() && preferences == old(preferences) && request == old(request)
      ensures log == old(log) + t.prepared + CallEvents(Input(t.id, kind, payload, preferences), t.first)
                     + RetrialPart(t.retrial, Input(id, kind, payload, preferences))
                     + EndEvents(t.retrial, Input(id, kind, payload, preferences), ok, output)
      ensures IsFirstTrial(t.prepared, t.id, t.first, t.between, old(status), old(id), request)
      ensures IsCommand(t, old(since), id, request, MAX_PLAY_BACK_SIZE, ok, output)
      ensures t.retrial.None? ==> status == t.between
      ensures t.retrial.Some? <==> t.first.Some? && match t.first.value
        case NoClient => false
        case NotConnected => true
        case Connected(protocol, _, _, reply) =>
          protocol == 3 && (reply.IpcError? || (reply.Answer? && reply.output.id != t.id))
      ensures ok && kind.SendKey? && output.consumed && output.hasResult ==> historyInputs == []
      ensures JournalAfter(old(historyInputs), historyInputs, t.retrial.Some? && t.retrial.value.Retried?,
                           Input(id, kind, payload, preferences), ok, output)
      ensures t.first.None? ==> historyInputs == old(historyInputs)
      ensures since
           == SinceCommand(t.retrial, old(since), MAX_PLAY_BACK_SIZE, Input(id, kind, payload, preferences), ok, output)
    {
      ok, output, t := SendUserCommand(kind, payload);
      JournalOfCommand(old(historyInputs), old(since), historyInputs, t.retrial, Input(id, kind, payload, preferences), ok, output);
    }

    // ---- Other operations ----

    // Contacts the server whatever the status and version, and changes nothing.
    method PingServer() returns (ok: bool, ghost x: Exchange)
      requires Valid()
      modifies `log
      ensures Valid() && log == old(log) + [Pinged(x)]
      ensures ok <==> x.Connected? && (x.reply.Answer? || x.reply.Unparsable?)
    {
      var exchange: Exchange := *;
      x := exchange;
      RecordAside(Pinged(exchange));
      match exchange {
        case NoClient => return false, x;
        case NotConnected => return false, x;
        case Connected(_, _, _, reply) =>
          ok := !reply.IpcTimeout? && !reply.IpcError?;
          match reply {
            case IpcTimeout =>
            case IpcError =>
            case Unparsable =>
            case Answer(_) =>
          }
      }
    }

    method Reset()
      requires Valid()
      modifies `status, `serverProtocolVersion, `serverProcessId
      ensures Valid() && status == ServerUnknown && serverProtocolVersion == 0 && serverProcessId == 0
    {
      status := ServerUnknown;
      serverProtocolVersion := 0;
      serverProcessId := 0;
    }

    // ---- Whole runs ----

    method ApplyCommand(kind: CommandType, payload: string) returns (ghost events: seq<Event>)
      requires Valid() && UserCommand(kind)
      modifies this
      ensures Valid() && log == old(log) + events
      ensures old(status).ServerFatal? ==>
        status.ServerFatal? && events == [] && historyInputs == old(historyInputs) && id == old(id)
    {
      var ok, output;
      ghost var t;
      ok, output, t := EnsureCallCommand(kind, payload);
      events := log[|old(log)|..];
      if old(status).ServerFatal? {
        FatalCommand(t, old(id), old(since), id, request, MAX_PLAY_BACK_SIZE, ok, output);
      }
    }

    method Apply(op: Op) returns (ghost events: seq<Event>)
      requires Valid() && op.WellFormed()
      modifies this
      ensures Valid() && log == old(log) + events
      ensures old(status).ServerFatal? && !op.Revives() ==>
        status.ServerFatal? && OnlyWatches(events) && historyInputs == old(historyInputs) && id == old(id)
    {
      var ok;
      match op {
        case EnsureConnectionOp =>
          ok := EnsureConnection();
          events := ConnectEvents(old(status), ok);
        case EnsureSessionOp =>
          ok, events := EnsureSession();
        case CommandOp(kind, payload) =>
          events := ApplyCommand(kind, payload);
        case CallSimple(kind) =>
          ghost var x;
          ok, x := CallCommand(kind);
          events := CallEvents(Input(id, kind, "", preferences), x);
        case DeleteSessionOp =>
          ghost var x;
          ok, x := DeleteOpenSession();
          events := CallEvents(Input(old(id), DeleteSession, "", preferences), x);
        case ShutdownOp =>
          ghost var x;
          ok, x := Shutdown();
          events := CallEvents(Input(id, ShutdownServer, "", preferences), x) + [Waited(serverProcessId, ok)];
        case CheckVersionOp =>
          ok, events := CheckVersionOrRestartServer();
        case PingOp =>
          ghost var x;
          ok, x := PingServer();
          events := [Pinged(x)];
        case ResetOp =>
          Reset();
          events := [];
      }
    }

    // Over any sequence of operations and any behaviour of the surroundings, the journal is what
    // the history says, which records answered inputs only and forgets them only for a reason;
    // commands are sent only in the session that is open; and a client in the fatal status stays
    // there, without calling the server, until it is reset or checks versions.
    method Run(ops: seq<Op>) returns (ghost events: seq<Event>)
      requires Valid() && forall i :: 0 <= i < |ops| ==> ops[i].WellFormed()
      modifies this
      ensures Valid() && log == old(log) + events
      ensures Disciplined(log) && Grounded(log) && id == SessionId(log)
      ensures forall k :: 0 <= k < |log| && log[k].Accepted? ==>
        log[k].done.kind.SendKey? && log[k].output.consumed && log[k].output.hasResult ==>
          k + 1 < |log| && log[k + 1].Forgotten?
      ensures forall k :: 0 < k < |log| && log[k].Forgotten? && log[k - 1].Accepted? ==>
        || (log[k - 1].done.kind.SendKey? && log[k - 1].output.consumed && log[k - 1].output.hasResult)
        || |Since(log[..k])| >= 512
      ensures var s := Since(log);
        |historyInputs| <= MAX_PLAY_BACK_SIZE && |historyInputs| <= |s| && SameCommands(historyInputs, s[..|historyInputs|])
        && (|historyInputs| < |s| ==> |historyInputs| == MAX_PLAY_BACK_SIZE)
      ensures old(status).ServerFatal? && (forall i :: 0 <= i < |ops| ==> !ops[i].Revives()) ==>
        status.ServerFatal? && OnlyWatches(events)
    {
      events := [];
      for i := 0 to |ops|
        invariant Valid() && log == old(log) + events
        invariant old(status).ServerFatal? && (forall k :: 0 <= k < i ==> !ops[k].Revives()) ==>
          status.ServerFatal? && OnlyWatches(events)
      {
        ghost var more := Apply(ops[i]);
        events := events + more;
      }
      assert Peek(0);
      ClearedAtCommits(log);
    }
  }
}
