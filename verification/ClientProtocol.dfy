/** What the IPC client and its surroundings exchange, and the history of these exchanges:
    the inputs a session has consumed, the session that is open, and which inputs may be sent. */
module ClientProtocol {

  import opened Hiding
  import opened Wrappers

  // In the order of the source's enum; the statuses from ServerTimeout on admit no more calls.
  datatype Status =
    | ServerUnknown
    | ServerShutdown
    | ServerInvalidSession
    | ServerOk
    | ServerTimeout
    | ServerVersionMismatch
    | ServerBrokenMessage
    | ServerFatal
  {
    predicate Dead() { ServerTimeout? || ServerVersionMismatch? || ServerBrokenMessage? || ServerFatal? }
    predicate Connected() { ServerOk? || ServerInvalidSession? }
  }

  datatype CommandType =
    | CreateSession
    | DeleteSession
    | SendKey
    | TestSendKey
    | SendCommand
    | SetRequest
    | NoOperation
    | ShutdownServer
    | OtherCommand(code: nat)

  datatype Input = Input(id: nat, kind: CommandType, payload: string, config: Option<string>)

  datatype Output = Output(id: nat, sessionSuccess: bool, consumed: bool, hasResult: bool)

  // The capacity of the journal.
  const MAX_PLAY_BACK_SIZE: nat := 512

  const IPC_PROTOCOL_VERSION: nat := 3
  // Product versions are ordered; this is the position of the client's own.
  const MOZC_VERSION: int := 0

  datatype Reply = IpcTimeout | IpcError | Unparsable | Answer(output: Output)

  // What becomes of one attempt to call the server.
  datatype Exchange =
    | NoClient
    | NotConnected
    | Connected(protocol: nat, product: int, pid: nat, reply: Reply)
  {
    predicate Answered() { Connected? && protocol == IPC_PROTOCOL_VERSION && reply.Answer? }
    function Protocol(): nat { if Connected? then protocol else IPC_PROTOCOL_VERSION }
    function Product(): int { if Connected? then product else MOZC_VERSION }
    function Pid(): nat { if Connected? then pid else 0 }
    // Answered by a server that is not older than the client.
    predicate Current() { Answered() && product >= MOZC_VERSION }
  }

  datatype ErrorType = FatalTimeout | FatalBrokenMessage | FatalVersionMismatch | FatalServerFatal

  datatype Event =
    | Called(input: Input, exchange: Exchange)
    | Pinged(exchange: Exchange)
    | Started(ok: bool)
    | Terminated(ok: bool)
    | Waited(pid: nat, ok: bool)
    | ReportedFatal(error: ErrorType)
    // An input was processed and answered, for the journal to record.
    | Accepted(done: Input, output: Output)
    // The journal was cleared.
    | Forgotten

  // ---- History ----

  // The consumed inputs since the journal was last cleared, however many there are.
  function SinceStep(since: seq<Input>, e: Event): seq<Input> {
    match e
    case Accepted(input, output) => if output.consumed then since + [input] else since
    case Forgotten => []
    case _ => since
  }

  function Since(log: seq<Event>): seq<Input> {
    if log == [] then [] else SinceStep(Since(log[..|log| - 1]), log[|log| - 1])
  }

  // The session opened last and not deleted since, or 0.
  function SessionStep(id: nat, e: Event): nat {
    match e
    case Called(input, x) =>
      if input.kind.CreateSession? then
        if x.Current() && x.reply.output.sessionSuccess then x.reply.output.id else 0
      else if input.kind.DeleteSession? && x.Answered() then 0
      else id
    case _ => id
  }

  function SessionId(log: seq<Event>): nat {
    if log == [] then 0 else SessionStep(SessionId(log[..|log| - 1]), log[|log| - 1])
  }

  // Every input but the request for a session and the version check is sent in the open session.
  predicate InSession(id: nat, e: Event) {
    e.Called? ==> e.input.id == id || ((e.input.kind.CreateSession? || e.input.kind.NoOperation?) && e.input.id == 0)
  }

  predicate Disciplined(log: seq<Event>) {
    log == [] || (InSession(SessionId(log[..|log| - 1]), log[|log| - 1]) && Disciplined(log[..|log| - 1]))
  }

  // The commands of an input session, which alone are recorded in the journal.
  predicate UserCommand(kind: CommandType) {
    kind.SendKey? || kind.TestSendKey? || kind.SendCommand?
  }

  // The server went away, or answered for another session: the only reasons for a second trial.
  predicate SessionLost(x: Exchange, id: nat) {
    x.NotConnected? || (x.Connected? && x.protocol == IPC_PROTOCOL_VERSION &&
                        (x.reply.IpcError? || (x.reply.Answer? && x.reply.output.id != id)))
  }

  // A consumed key that commits text ends the context that a replay would have to restore.
  predicate IsBoundary(input: Input, output: Output) {
    output.consumed && input.kind.SendKey? && output.hasResult
  }

  // ---- What the journal goes by ----

  // The call answered the input with the output.
  predicate IsAnswer(e: Event, input: Input, output: Output) {
    e.Called? && e.input == input && e.exchange.Answered() && e.exchange.reply.output == output
  }

  // A command of a session that lost it, and one that was not answered.
  predicate IsLost(e: Event) { e.Called? && UserCommand(e.input.kind) && SessionLost(e.exchange, e.input.id) }
  predicate IsFailure(e: Event) { e.Called? && UserCommand(e.input.kind) && !e.exchange.Answered() }

  // The server granted a session.
  predicate IsGrant(e: Event) {
    e.Called? && e.input.kind.CreateSession? && e.exchange.Current() && e.exchange.reply.output.sessionSuccess
  }

  // Neither a command of a session nor an entry of the journal.
  predicate IsQuiet(e: Event) {
    !e.Accepted? && !e.Forgotten? && (e.Called? ==> !UserCommand(e.input.kind))
  }

  // Two properties of sequences of events, used only where Peek(0) is mentioned.
  ghost predicate AllQuiet(events: seq<Event>) {
    forall i: nat {:trigger Peek(i)} :: Peek(i) ==> forall k :: 0 <= k < |events| ==> IsQuiet(events[k])
  }

  ghost predicate AllCalls(events: seq<Event>) {
    forall i: nat {:trigger Peek(i)} :: Peek(i) ==>
      forall k :: 0 <= k < |events| ==> events[k].Called? || events[k].Forgotten?
  }

  lemma {:induction false} QuietConcat(a: seq<Event>, b: seq<Event>)
    requires AllQuiet(a) && AllQuiet(b)
    ensures AllQuiet(a + b)
  {
  }

  lemma {:induction false} CallsConcat(a: seq<Event>, b: seq<Event>)
    requires AllCalls(a) && AllCalls(b)
    ensures AllCalls(a + b)
  {
  }

  predicate EndsWithAnswer(log: seq<Event>, input: Input, output: Output) {
    log != [] && IsAnswer(log[|log| - 1], input, output)
  }

  predicate EndsLost(log: seq<Event>) {
    log != [] && IsLost(log[|log| - 1])
  }

  ghost predicate SecondTrial(log: seq<Event>, m: nat, j: nat)
    requires m < j < |log| - 1
  {
    && IsLost(log[m]) && (forall k :: m < k < j ==> IsQuiet(log[k])) && IsGrant(log[j])
    && (forall k :: j < k < |log| ==> log[k].Called? || log[k].Forgotten?) && IsFailure(log[|log| - 1])
  }

  // Since the command at m lost the session, which nothing but the opening of another followed, one
  // was granted at j, and the last of the calls in it failed.
  ghost predicate FailedTwice(log: seq<Event>) {
    exists m, j :: 0 <= m < j < |log| - 1 && SecondTrial(log, m, j)
  }

  predicate Commits(e: Event) {
    e.Accepted? && IsBoundary(e.done, e.output)
  }

  predicate EndsAtBoundary(log: seq<Event>) {
    log != [] && Commits(log[|log| - 1])
  }

  // An input is recorded only when it has just been answered, and the journal is dropped only at a
  // boundary, when it is full, or when a second trial has just failed.
  ghost predicate Grounds(log: seq<Event>, since: seq<Input>, e: Event) {
    match e
    case Accepted(input, output) => EndsWithAnswer(log, input, output)
    case Forgotten => |since| >= MAX_PLAY_BACK_SIZE || FailedTwice(log) || EndsAtBoundary(log)
    case _ => true
  }

  ghost predicate Grounded(log: seq<Event>) {
    log == [] ||
    (var before := log[..|log| - 1]; Grounds(before, Since(before), log[|log| - 1]) && Grounded(before))
  }

  lemma {:induction false} GroundedThroughout(log: seq<Event>, k: nat)
    requires Grounded(log) && k < |log|
    ensures Grounds(log[..k], Since(log[..k]), log[k])
  {
    if k < |log| - 1 {
      GroundedThroughout(log[..|log| - 1], k);
      assert log[..|log| - 1][..k] == log[..k];
    }
  }

  // The journal is cleared directly after every key that commits text.
  predicate Settled(log: seq<Event>) {
    forall k :: 0 <= k < |log| && Commits(log[k]) ==> k + 1 < |log| && log[k + 1].Forgotten?
  }

  // A journal that is cleared directly after any other recorded input is full.
  lemma {:induction false} ClearedAtCommits(log: seq<Event>)
    requires Grounded(log)
    ensures forall k :: 0 < k < |log| && log[k].Forgotten? && log[k - 1].Accepted? && !Commits(log[k - 1]) ==>
      |Since(log[..k])| >= 512
  {
    forall k | 0 < k < |log| && log[k].Forgotten? && log[k - 1].Accepted? && !Commits(log[k - 1])
      ensures |Since(log[..k])| >= 512
    {
      GroundedThroughout(log, k);
      assert log[..k][|log[..k]| - 1] == log[k - 1];
    }
  }

  // What a history amounts to; the definitions are used only where Peek(0) is mentioned.
  ghost predicate History(log: seq<Event>, since: seq<Input>, session: nat) {
    forall i: nat {:trigger Peek(i)} :: Peek(i) ==>
      Since(log) == since && SessionId(log) == session && Disciplined(log) && Grounded(log) && Settled(log)
  }

  lemma {:induction false} HistoryStep(log: seq<Event>, since: seq<Input>, session: nat, e: Event)
    requires History(log, since, session) && InSession(session, e) && Grounds(log, since, e) && !Commits(e)
    ensures History(log + [e], SinceStep(since, e), SessionStep(session, e))
  {
    assert (log + [e])[..|log|] == log;
  }

  lemma {:induction false} CommitStep(log: seq<Event>, since: seq<Input>, session: nat, input: Input, output: Output)
    requires History(log, since, session) && EndsWithAnswer(log, input, output)
    requires input.kind.SendKey? && output.consumed && output.hasResult
    ensures History(log + [Accepted(input, output)] + [Forgotten], [], session)
  {
    assert Peek(0);
    var first := log + [Accepted(input, output)];
    var second := first + [Forgotten];
    assert first[..|log|] == log && second[..|first|] == first;
    assert Grounded(first) && Grounded(second);
    assert Since(first) == since + [input] && Since(second) == [];
    assert Disciplined(first) && Disciplined(second) && SessionId(first) == session && SessionId(second) == session;
  }

  // Discipline holds at every event of a history, not only at its last.
  lemma {:induction false} DisciplinedThroughout(log: seq<Event>, k: nat)
    requires Disciplined(log) && k < |log|
    ensures InSession(SessionId(log[..k]), log[k])
  {
    if k < |log| - 1 {
      DisciplinedThroughout(log[..|log| - 1], k);
      assert log[..|log| - 1][..k] == log[..k];
    }
  }

  // The same inputs in the same order, whatever session they name.
  predicate SameCommands(a: seq<Input>, b: seq<Input>) {
    |a| == |b| && forall i :: 0 <= i < |a| ==> a[i].(id := 0) == b[i].(id := 0)
  }

  // ---- One call ----

  function StatusAfter(status: Status, x: Exchange): Status {
    match x
    case NoClient => ServerFatal
    case NotConnected => if status.ServerUnknown? then ServerUnknown else ServerShutdown
    case Connected(protocol, _, _, reply) =>
      if protocol != IPC_PROTOCOL_VERSION then status
      else
        match reply
        case IpcTimeout => ServerTimeout
        case IpcError => ServerShutdown
        case Unparsable => ServerBrokenMessage
        case Answer(_) => status
  }

  // A replay of inputs in the session id: each in turn, up to the first that is not answered.
  ghost predicate IsReplay(events: seq<Event>, inputs: seq<Input>, id: nat) {
    forall i: nat {:trigger Peek(i)} :: Peek(i) ==>
      && |events| <= |inputs|
      && (forall k :: 0 <= k < |events| ==>
            events[k].Called? && events[k].input == inputs[k].(id := id) && (k < |events| - 1 ==> events[k].exchange.Answered()))
      && (|events| < |inputs| ==> events != [] && !events[|events| - 1].exchange.Answered())
  }

  // A replay in progress: everything so far was answered.
  ghost predicate ReplaySoFar(events: seq<Event>, inputs: seq<Input>, id: nat) {
    forall i: nat {:trigger Peek(i)} :: Peek(i) ==>
      |events| <= |inputs| && forall k :: 0 <= k < |events| ==>
        events[k].Called? && events[k].input == inputs[k].(id := id) && events[k].exchange.Answered()
  }

  lemma {:induction false} ReplayMore(events: seq<Event>, inputs: seq<Input>, id: nat, e: Event)
    requires |events| < |inputs| && ReplaySoFar(events, inputs, id)
    requires e.Called? && e.input == inputs[|events|].(id := id)
    ensures if e.exchange.Answered() then ReplaySoFar(events + [e], inputs, id) else IsReplay(events + [e], inputs, id)
  {
  }

  lemma {:induction false} ReplayDone(events: seq<Event>, inputs: seq<Input>, id: nat)
    requires |events| == |inputs| && ReplaySoFar(events, inputs, id)
    ensures IsReplay(events, inputs, id)
  {
  }

  predicate UserCommands(inputs: seq<Input>) {
    forall i :: 0 <= i < |inputs| ==> UserCommand(inputs[i].kind)
  }

  // The journal with the given capacity holds the oldest of these inputs, all commands of a
  // session; the definition is used only where Peek(0) is mentioned.
  ghost predicate Journal(history: seq<Input>, since: seq<Input>, capacity: nat) {
    forall i: nat {:trigger Peek(i)} :: Peek(i) ==>
      UserCommands(since) && SameCommands(history, since[..if |since| < capacity then |since| else capacity])
  }

  lemma {:induction false} JournalLength(history: seq<Input>, since: seq<Input>, capacity: nat)
    requires Journal(history, since, capacity)
    ensures |history| == if |since| < capacity then |since| else capacity
  {
    assert Peek(0);
  }

  lemma {:induction false} JournalEmpty(capacity: nat)
    ensures Journal([], [], capacity)
  {
  }

  lemma {:induction false} JournalPush(history: seq<Input>, since: seq<Input>, capacity: nat, input: Input)
    requires Journal(history, since, capacity) && UserCommand(input.kind)
    ensures Journal(if |history| < capacity then history + [input] else history, since + [input], capacity)
  {
  }

  lemma {:induction false} JournalEntry(history: seq<Input>, since: seq<Input>, capacity: nat, i: nat, id: nat)
    requires Journal(history, since, capacity) && i < |history|
    ensures i < |since| && UserCommand(history[i].kind) && history[i].(id := id) == since[i].(id := id)
    ensures Journal(history[i := history[i].(id := id)], since, capacity)
  {
    assert Peek(0);
  }

  // ---- Judging one attempt with respect to versions ----

  datatype Verdict = Accept | Restart(compatible: bool) | Reject(status: Status)

  // What an attempt decides, from the status before it, the exchange if there was one, and the
  // protocol version last seen.
  function Judge(status: Status, x: Option<Exchange>, protocol: nat): Verdict {
    var answered := x.Some? && x.value.Answered();
    var after := if x.Some? then StatusAfter(status, x.value) else status;
    if answered then if x.value.Current() then Accept else Restart(true)
    else if protocol > IPC_PROTOCOL_VERSION then Reject(ServerVersionMismatch)
    else if protocol < IPC_PROTOCOL_VERSION then Restart(false)
    else Reject(after)
  }

  ghost predicate IsStart(r: seq<Event>, ok: bool) {
    r == if ok then [Started(true)] else [Started(false), ReportedFatal(FatalServerFatal)]
  }

  ghost predicate IsForced(r: seq<Event>, ok: bool) {
    && r != [] && r[0].Terminated?
    && if r[0].ok then |r| >= 2 && r[1].Waited? && IsStart(r[2..], ok) else |r| == 1 && !ok
  }

  // The events of a restart, and whether it succeeded. A compatible server is asked to shut down
  // first and terminated only if it stays.
  ghost predicate IsRestart(r: seq<Event>, compatible: bool, ok: bool) {
    if compatible then
      && |r| >= 2 && r[0].Called? && r[0].input.kind.ShutdownServer? && r[1].Waited?
      && if r[1].ok then IsStart(r[2..], ok) else IsForced(r[2..], ok)
    else IsForced(r, ok)
  }

  lemma {:induction false} ForcedShape(pid: nat, waited: bool, start: seq<Event>, ok: bool)
    requires IsStart(start, ok)
    ensures IsForced([Terminated(true), Waited(pid, waited)] + start, ok)
  {
  }

  lemma {:induction false} CompatibleShape(input: Input, x: Exchange, pid: nat, waited: bool, rest: seq<Event>, ok: bool)
    requires input.kind.ShutdownServer? && if waited then IsStart(rest, ok) else IsForced(rest, ok)
    ensures IsRestart([Called(input, x), Waited(pid, waited)] + rest, true, ok)
  {
  }

  // A server that could not be terminated leaves the client with a broken message, one that
  // could not be started with a version mismatch.
  function RestartStatus(r: seq<Event>, ok: bool): Status
    requires r != []
  {
    if ok then ServerInvalidSession
    else if r[|r| - 1] == Terminated(false) then ServerBrokenMessage
    else ServerVersionMismatch
  }

  // A restart starts the server at most once.
  function Starts(log: seq<Event>): nat {
    if log == [] then 0 else Starts(log[1..]) + if log[0].Started? then 1 else 0
  }

  lemma {:induction false} StartStartsOnce(r: seq<Event>, ok: bool)
    requires IsStart(r, ok)
    ensures Starts(r) == 1
  {
    var rest := r[1..];
    assert Starts(rest) == 0 by {
      if ok {
        assert rest == [];
      } else {
        assert rest[1..] == [] && !rest[0].Started?;
      }
    }
  }

  lemma {:induction false} ForcedStartsOnce(r: seq<Event>, ok: bool)
    requires IsForced(r, ok)
    ensures Starts(r) <= 1 && (ok ==> Starts(r) == 1)
  {
    if r[0].ok {
      assert r[1..][1..] == r[2..];
      assert Starts(r) == Starts(r[2..]);
      StartStartsOnce(r[2..], ok);
    } else {
      assert r[1..] == [];
    }
  }

  lemma {:induction false} RestartStartsOnce(r: seq<Event>, compatible: bool, ok: bool)
    requires IsRestart(r, compatible, ok)
    ensures Starts(r) <= 1 && (ok ==> Starts(r) == 1)
  {
    if compatible {
      assert r[1..][1..] == r[2..];
      assert Starts(r) == Starts(r[2..]);
      if r[1].ok {
        StartStartsOnce(r[2..], ok);
      } else {
        ForcedStartsOnce(r[2..], ok);
      }
    } else {
      ForcedStartsOnce(r, ok);
    }
  }

  // How EnsureConnection tries to connect, and what it reports if it fails.
  function ConnectEvents(status: Status, ok: bool): seq<Event> {
    if status.ServerTimeout? then [ReportedFatal(FatalTimeout)]
    else if status.ServerBrokenMessage? then [ReportedFatal(FatalBrokenMessage)]
    else if status.ServerVersionMismatch? then [ReportedFatal(FatalVersionMismatch)]
    else if status.ServerShutdown? || status.ServerUnknown? then
      (if ok then [Started(true)] else [Started(false), ReportedFatal(FatalServerFatal)])
    else []
  }

  lemma {:induction false} Appended(a: seq<Event>, b: seq<Event>, c: seq<Event>)
    ensures (a + b) + c == a + (b + c)
  {
  }

  lemma {:induction false} RetrialAppended(log: seq<Event>, reopened: seq<Event>, replay: seq<Event>, calls: seq<Event>)
    ensures log + reopened + replay + calls == log + (reopened + (replay + calls))
  {
  }

  function CallEvents(input: Input, x: Option<Exchange>): seq<Event> {
    if x.Some? then [Called(input, x.value)] else []
  }

  function ProtocolSeen(x: Option<Exchange>, before: nat): nat {
    if x.Some? then x.value.Protocol() else before
  }

  ghost predicate SecondAttempt(x: Exchange, ok: bool, after: Status) {
    match Judge(ServerInvalidSession, Some(x), x.Protocol())
    case Accept => ok && after == ServerInvalidSession
    case Reject(s) => !ok && after == s
    case Restart(_) => !ok && after == ServerBrokenMessage
  }

  // A version check: an attempt, and if it finds an outdated server one restart and, if that
  // succeeds, a second attempt, which must not find an outdated server again.
  ghost predicate IsCheck(before: Status, protocol: nat, x1: Option<Exchange>, restart: seq<Event>, x2: Option<Exchange>,
                          ok: bool, after: Status) {
    match Judge(before, x1, ProtocolSeen(x1, protocol))
    case Accept => ok && restart == [] && x2.None? && after == before
    case Reject(s) => !ok && restart == [] && x2.None? && after == s
    case Restart(compatible) =>
      && restart != []
      && IsRestart(restart, compatible, x2.Some?)
      && if x2.None? then !ok && after == RestartStatus(restart, false)
         else SecondAttempt(x2.value, ok, after)
  }

  // A check succeeds only on an answer of a server that is not outdated, and restarts once at most.
  lemma {:induction false} CheckOutcome(before: Status, protocol: nat, x1: Option<Exchange>, restart: seq<Event>, x2: Option<Exchange>,
                     ok: bool, after: Status)
    requires IsCheck(before, protocol, x1, restart, x2, ok, after)
    ensures ok <==> if x2.Some? then x2.value.Current() else x1.Some? && x1.value.Current()
    ensures Starts(restart) <= 1
    ensures after == ServerOk ==> before == ServerOk && restart == []
    ensures ok ==> after == if restart == [] then before else ServerInvalidSession
  {
    var v := Judge(before, x1, ProtocolSeen(x1, protocol));
    if v.Restart? {
      RestartStartsOnce(restart, v.compatible, x2.Some?);
    }
  }

  // The same by what came of the first call: only an older server is restarted, asked to shut down
  // first if it answers in the client's protocol.
  lemma {:induction false} CheckByFirstAnswer(before: Status, protocol: nat, x: Exchange, restart: seq<Event>, x2: Option<Exchange>,
                           ok: bool, after: Status)
    requires IsCheck(before, protocol, Some(x), restart, x2, ok, after)
    ensures match x
      case NoClient => !ok && restart == [] && after == ServerFatal
      case NotConnected => !ok && restart == [] && after == if before == ServerUnknown then ServerUnknown else ServerShutdown
      case Connected(protocol, product, _, reply) =>
        if protocol > 3 then !ok && restart == [] && after == ServerVersionMismatch
        else if protocol < 3 then restart != [] && restart[0].Terminated?
        else match reply
          case IpcTimeout => !ok && restart == [] && after == ServerTimeout
          case IpcError => !ok && restart == [] && after == ServerShutdown
          case Unparsable => !ok && restart == [] && after == ServerBrokenMessage
          case Answer(_) =>
            if product >= MOZC_VERSION then ok && restart == [] && after == before
            else restart != [] && restart[0].Called? && restart[0].input.kind.ShutdownServer?
  {
  }

  // What a restart and the second call leave behind.
  lemma {:induction false} CheckByRestart(before: Status, protocol: nat, x1: Option<Exchange>, restart: seq<Event>, x2: Option<Exchange>,
                       ok: bool, after: Status)
    requires IsCheck(before, protocol, x1, restart, x2, ok, after) && restart != []
    ensures match x2
      case None => !ok && after == if restart[|restart| - 1] == Terminated(false) then ServerBrokenMessage else ServerVersionMismatch
      case Some(NoClient) => !ok && after == ServerFatal
      case Some(NotConnected) => !ok && after == ServerShutdown
      case Some(Connected(protocol, product, _, reply)) =>
        if protocol > 3 then !ok && after == ServerVersionMismatch
        else if protocol < 3 then !ok && after == ServerBrokenMessage
        else match reply
          case IpcTimeout => !ok && after == ServerTimeout
          case IpcError => !ok && after == ServerShutdown
          case Unparsable => !ok && after == ServerBrokenMessage
          case Answer(_) => if product >= MOZC_VERSION then ok && after == ServerInvalidSession else !ok && after == ServerBrokenMessage
  {
  }

  function AcceptEvents(input: Input, output: Output): seq<Event> {
    [Accepted(input, output)] + if IsBoundary(input, output) then [Forgotten] else []
  }

  // Events that end with a server that is not outdated granting the session id, followed by the
  // request that is then sent in it.
  ghost predicate GrantsSession(events: seq<Event>, id: nat, request: Option<string>) {
    forall i: nat {:trigger Peek(i)} :: Peek(i) ==>
      var n := if request.Some? then 2 else 1;
      && |events| >= n
      && var e := events[|events| - n];
      && e.Called? && e.input.kind.CreateSession? && e.exchange.Current() && e.exchange.reply.output.sessionSuccess
      && id == e.exchange.reply.output.id
      && (request.Some? ==>
            events[|events| - 1].Called? && events[|events| - 1].input == Input(id, SetRequest, request.value, None))
  }

  // The first trial lost the session, another was granted, and the calls in it ended with a failure.
  lemma {:induction false} FailsTwice(log: seq<Event>, reopened: seq<Event>, id: nat, request: Option<string>, calls: seq<Event>)
    requires EndsLost(log) && AllQuiet(reopened) && GrantsSession(reopened, id, request)
    requires calls != [] && IsFailure(calls[|calls| - 1])
    requires AllCalls(calls)
    ensures FailedTwice(log + reopened + calls)
  {
    assert Peek(0);
    var all := log + reopened + calls;
    var m, j := |log| - 1, |log| + |reopened| - if request.Some? then 2 else 1;
    assert all[m] == log[m] && all[j] == reopened[j - |log|];
    assert SecondTrial(all, m, j);
  }

  lemma {:induction false} RestartIsQuiet(restart: seq<Event>, compatible: bool, ok: bool)
    requires IsRestart(restart, compatible, ok)
    ensures AllQuiet(restart)
  {
  }

  lemma {:induction false} CallIsQuiet(input: Input, x: Option<Exchange>)
    requires !UserCommand(input.kind)
    ensures AllQuiet(CallEvents(input, x))
  {
  }

  lemma {:induction false} CallIsCall(input: Input, x: Option<Exchange>)
    ensures AllCalls(CallEvents(input, x))
  {
  }

  // The same for the events of a second trial that fails, or is not made because the replay failed.
  lemma {:induction false} RetrialFails(log: seq<Event>, reopened: seq<Event>, id: nat, request: Option<string>,
                       replay: seq<Event>, input: Input, second: Option<Exchange>)
    requires EndsLost(log) && AllQuiet(reopened) && GrantsSession(reopened, id, request) && AllCalls(replay)
    requires UserCommand(input.kind) && (second.Some? ==> !second.value.Answered())
    requires second.None? ==> replay != [] && IsFailure(replay[|replay| - 1])
    ensures FailedTwice(log + reopened + replay + CallEvents(input, second))
  {
    var calls := replay + CallEvents(input, second);
    CallIsCall(input, second);
    CallsConcat(replay, CallEvents(input, second));
    FailsTwice(log, reopened, id, request, calls);
    Appended(log + reopened, replay, CallEvents(input, second));
  }

  lemma {:induction false} FailureForgets(log: seq<Event>, reopened: seq<Event>, id: nat, request: Option<string>, replay: seq<Event>,
                         input: Input, second: Option<Exchange>, all: seq<Event>, since: seq<Input>, session: nat)
    requires EndsLost(log) && AllQuiet(reopened) && GrantsSession(reopened, id, request) && AllCalls(replay)
    requires UserCommand(input.kind) && (second.Some? ==> !second.value.Answered())
    requires second.None? ==> replay != [] && IsFailure(replay[|replay| - 1])
    requires all == log + reopened + replay + CallEvents(input, second) && History(all, since, session)
    ensures History(all + [Forgotten], [], session)
  {
    RetrialFails(log, reopened, id, request, replay, input, second);
    HistoryStep(all, since, session, Forgotten);
  }

  lemma {:induction false} ReplayIsCalls(events: seq<Event>, inputs: seq<Input>, id: nat)
    requires IsReplay(events, inputs, id)
    ensures AllCalls(events)
  {
    assert Peek(0);
  }

  lemma {:induction false} ConnectIsQuiet(status: Status, ok: bool)
    ensures AllQuiet(ConnectEvents(status, ok))
  {
  }

  // A version check sends no command of a session.
  lemma {:induction false} CheckIsQuiet(before: Status, protocol: nat, x1: Option<Exchange>, restart: seq<Event>,
                       x2: Option<Exchange>, ok: bool, after: Status, input: Input)
    requires IsCheck(before, protocol, x1, restart, x2, ok, after) && !UserCommand(input.kind)
    ensures AllQuiet(CallEvents(input, x1) + restart + CallEvents(input, x2))
  {
    var v := Judge(before, x1, ProtocolSeen(x1, protocol));
    if v.Restart? {
      RestartIsQuiet(restart, v.compatible, x2.Some?);
    }
    CallIsQuiet(input, x1);
    CallIsQuiet(input, x2);
    QuietConcat(CallEvents(input, x1), restart);
    QuietConcat(CallEvents(input, x1) + restart, CallEvents(input, x2));
  }

  lemma {:induction false} Granted(events: seq<Event>, x: Exchange)
    requires x.Current() && x.reply.output.sessionSuccess
    ensures GrantsSession(events + [Called(Input(0, CreateSession, "", None), x)], x.reply.output.id, None)
  {
  }

  lemma {:induction false} GrantedThenRequest(before: seq<Event>, events: seq<Event>, id: nat, request: string, x: Exchange)
    requires GrantsSession(events, id, None)
    ensures GrantsSession(before + events + [Called(Input(id, SetRequest, request, None), x)], id, Some(request))
  {
  }

  lemma {:induction false} GrantedAfter(before: seq<Event>, events: seq<Event>, id: nat)
    requires GrantsSession(events, id, None)
    ensures GrantsSession(before + events, id, None)
  {
  }

  // The second trial of a command: a session is opened, the journal replayed or dropped, and the
  // command repeated. Nothing is replayed if no session could be opened.
  datatype Retrial =
    | NoSession(reopened: seq<Event>)
    | Retried(reopened: seq<Event>, replay: seq<Event>, second: Option<Exchange>)

  ghost predicate IsRetrial(t: Retrial, since: seq<Input>, id: nat, request: Option<string>, capacity: nat) {
    t.Retried? ==>
      && GrantsSession(t.reopened, id, request)
      && if |since| < capacity then IsReplay(t.replay, since, id) else t.replay == [Forgotten]
  }

  function RetrialEvents(t: Retrial, input: Input): seq<Event> {
    match t
    case NoSession(reopened) => reopened
    case Retried(reopened, replay, second) => reopened + (replay + CallEvents(input, second))
  }

  // A command: what was done to have a session, the session, the first trial, the status after
  // it, and the second trial.
  datatype Command = Command(
    prepared: seq<Event>, id: nat, first: Option<Exchange>, between: Status, retrial: Option<Retrial>)

  // The first trial of a command, in the open session or in one just granted. Afterwards the
  // session is fine, or lost, or the client is dead.
  ghost predicate IsFirstTrial(prepared: seq<Event>, id: nat, first: Option<Exchange>, between: Status,
                               before: Status, oldId: nat, request: Option<string>) {
    && (before.ServerOk? ==> prepared == [] && id == oldId && first.Some?)
    && (!before.ServerOk? && first.Some? ==> GrantsSession(prepared, id, request))
    && (before.ServerFatal? ==> prepared == [] && id == oldId && first.None? && between.ServerFatal?)
    && match first
       case None => between.ServerInvalidSession? || between.ServerFatal?
       case Some(x) =>
         if SessionLost(x, id) then between.ServerShutdown? || between.ServerInvalidSession?
         else if x.Answered() then x.reply.output.id == id && between.ServerOk?
         else between.Dead()
  }

  // A command succeeds if the first trial is answered for its own session, or the second at all.
  ghost predicate IsCommand(t: Command, since: seq<Input>, id: nat, request: Option<string>, capacity: nat,
                            ok: bool, output: Output) {
    match t.retrial
    case None => t.id == id && (ok <==> t.first.Some? && t.first.value.Answered() && !SessionLost(t.first.value, id))
                 && (ok ==> output == t.first.value.reply.output)
    case Some(r) =>
      && t.first.Some? && SessionLost(t.first.value, t.id)
      && IsRetrial(r, since, id, request, capacity)
      && (ok <==> r.Retried? && r.second.Some? && r.second.value.Answered())
      && (ok ==> output == r.second.value.reply.output)
  }

  predicate Repeated(t: Option<Retrial>) { t.Some? && t.value.Retried? }

  function RetrialPart(t: Option<Retrial>, input: Input): seq<Event> {
    if t.Some? then RetrialEvents(t.value, input) else []
  }

  // How a command ends: its input is recorded, or the journal is dropped after two failures.
  function EndEvents(t: Option<Retrial>, input: Input, ok: bool, output: Output): seq<Event> {
    if ok then AcceptEvents(input, output) else if Repeated(t) then [Forgotten] else []
  }

  // The inputs to be replayed after the command: those before it, unless the journal was full or
  // the second trial failed, and the command itself if it was consumed.
  function SinceCommand(t: Option<Retrial>, since: seq<Input>, capacity: nat, input: Input,
                        ok: bool, output: Output): seq<Input> {
    if !ok then if Repeated(t) then [] else since
    else
      var kept := if Repeated(t) && |since| >= capacity then [] else since;
      if !output.consumed then kept else if IsBoundary(input, output) then [] else kept + [input]
  }

  // ---- Whole runs ----

  // The public operations. CallSimple stands for all that send one command in the open session.
  datatype Op =
    | EnsureConnectionOp
    | EnsureSessionOp
    | CommandOp(kind: CommandType, payload: string)
    | CallSimple(kind: CommandType)
    | DeleteSessionOp
    | ShutdownOp
    | CheckVersionOp
    | PingOp
    | ResetOp
  {
    predicate WellFormed() {
      match this
      case CommandOp(kind, _) => UserCommand(kind)
      case CallSimple(kind) => !kind.CreateSession? && !kind.DeleteSession?
      case _ => true
    }
    // The operations that a client in the fatal status can recover by.
    predicate Revives() { CheckVersionOp? || ResetOp? }
  }

  // What a client in the fatal status may still do: ping, and wait for a server to end.
  ghost predicate OnlyWatches(events: seq<Event>) {
    forall k :: 0 <= k < |events| ==> events[k].Pinged? || events[k].Waited?
  }

  // The journal after a command, said of its inputs: dropped if the second trial failed, and before a
  // replay if it was full; then a consumed input that commits text clears it, and any other consumed
  // input is appended while there is room.
  ghost predicate JournalAfter(before: seq<Input>, after: seq<Input>, retried: bool, input: Input, ok: bool, output: Output) {
    var kept := if retried && (!ok || |before| >= 512) then [] else before;
    if !ok || !output.consumed then SameCommands(after, kept)
    else if input.kind.SendKey? && output.hasResult then after == []
    else SameCommands(after, if |kept| < 512 then kept + [input] else kept)
  }

  lemma {:induction false} JournalOfCommand(before: seq<Input>, since: seq<Input>, after: seq<Input>, t: Option<Retrial>, input: Input,
                           ok: bool, output: Output)
    requires Journal(before, since, MAX_PLAY_BACK_SIZE)
    requires Journal(after, SinceCommand(t, since, MAX_PLAY_BACK_SIZE, input, ok, output), MAX_PLAY_BACK_SIZE)
    ensures JournalAfter(before, after, t.Some? && t.value.Retried?, input, ok, output)
  {
    assert Peek(0);
  }

  // In the fatal status a command neither contacts the server nor changes the journal.
  lemma {:induction false} FatalCommand(t: Command, oldId: nat, since: seq<Input>, id: nat, request: Option<string>, capacity: nat,
                     ok: bool, output: Output)
    requires IsFirstTrial(t.prepared, t.id, t.first, t.between, ServerFatal, oldId, request)
    requires IsCommand(t, since, id, request, capacity, ok, output)
    ensures !ok && t.retrial.None? && t.between.ServerFatal? && t.prepared == [] && t.first.None? && id == oldId
  {
  }
}
