/**
 The evidence stub as a state machine over client lines, ticks and the end of input, and the judge of its record.
 Times are seconds of a clock that never goes back. Redaction is left out: the record holds methods as sent.
*/
module McpProtocol {
  import opened Options

  const ROOTS_REQUEST_ID := "alice-evidence-roots-1"
  const TOOLS_LIST_GRACE_SECONDS := 1.5
  const INITIALIZED_WAIT_SECONDS := 10.0
  const LIST_LIMIT := 100

  /** The id of a message: absent, a string, or any other JSON value. */
  datatype Ident = NoId | Id(text: string) | OtherId(token: int)

  datatype ErrorField = NoError | NotAnObject | ErrorObject(code: Option<int>)

  datatype Params = Params(protocolVersion: Option<string>, declaresRoots: bool)

  /** One client line that parsed to an object. `method` is there when it is a string. */
  datatype Message = Message(methodName: Option<string>, ident: Ident, params: Params, hasResult: bool,
                             resultRoots: nat,
                             error: ErrorField)

  datatype Body = InitializeResult(version: string) | ToolsList | EmptyObject | EmptyList(key: string)

  datatype Sent = Reply(ident: Ident, body: Body) | ErrorReply(ident: Ident, code: int) | RootsProbe

  datatype Outcome = NotSent | NoReply | Answered | AnsweredError

  datatype Roots = Roots(sent: bool, outcome: Outcome, reason: Option<string>, unrequestedAnswer: bool,
                         waitedSeconds: Option<real>, errorCode: Option<int>, rootCount: Option<nat>)

  datatype Initialize = Initialize(received: bool, declaresRoots: bool)

  datatype Record = Record(complete: bool, probeFinished: bool, initialize: Initialize, clientRequests: seq<string>,
                           roots: Roots, stdinClosed: bool, error: Option<string>)

  datatype Stub = Stub(record: Record, initializeAt: Option<real>, initializedAt: Option<real>,
                       rootsSentAt: Option<real>,
                       sawToolsList: bool, out: seq<Sent>)

  const FIRST_RECORD := Record(false, false, Initialize(false, false), [],
                               Roots(false, NotSent, None, false, None, None, None), false, None)

  const FIRST_STUB := Stub(FIRST_RECORD, None, None, None, false, [])

  // ---------- Steps ----------

  function Note(names: seq<string>, methodName: string): seq<string>
  {
    if |names| < LIST_LIMIT then names + [methodName] else names
  }

  function EmptyListKey(methodName: string): Option<string>
  {
    if methodName == "resources/list" then Some("resources")
    else if methodName == "resources/templates/list" then Some("resourceTemplates")
    else if methodName == "prompts/list" then Some("prompts")
    else None
  }

  function Send(st: Stub, message: Sent): Stub { st.(out := st.out + [message]) }

  function HandleRequest(st: Stub, methodName: string, message: Message, now: real): Stub
  {
    if methodName == "initialize" then
      var version := match message.params.protocolVersion case Some(v) => v case None => "2024-11-05";
      Send(st.(record := st.record.(initialize := Initialize(true, message.params.declaresRoots)),
               initializeAt := Some(now)),
           Reply(message.ident, InitializeResult(version)))
    else if methodName == "notifications/initialized" then st.(initializedAt := Some(now))
    else if methodName == "tools/list" then Send(st.(sawToolsList := true), Reply(message.ident, ToolsList))
    else if methodName == "ping" then Send(st, Reply(message.ident, EmptyObject))
    else if EmptyListKey(methodName).Some?
    then Send(st, Reply(message.ident, EmptyList(EmptyListKey(methodName).value)))
    else if message.ident != NoId then Send(st, ErrorReply(message.ident, -32601))
    else st
  }

  predicate IsAnswer(message: Message)
  {
    message.methodName.None? && message.ident == Id(ROOTS_REQUEST_ID) && (message.hasResult || !message.error.NoError?)
  }

  function FinishRoots(st: Stub, now: real): Stub
  {
    var waited := match st.rootsSentAt case Some(sent) => Some(now - sent) case None => st.record.roots.waitedSeconds;
    st.(record := st.record.(roots := st.record.roots.(waitedSeconds := waited), probeFinished := true,
                             complete := true))
  }

  function RootsAnswer(st: Stub, message: Message, now: real): Stub
  {
    var roots := st.record.roots;
    if st.rootsSentAt.None? then st.(record := st.record.(roots := roots.(unrequestedAnswer := true)))
    else
      var answered :=
        if message.error.ErrorObject? then roots.(outcome := AnsweredError, errorCode := message.error.code)
        else roots.(outcome := Answered, rootCount := Some(message.resultRoots));
      FinishRoots(st.(record := st.record.(roots := answered)), now)
  }

  function Handle(st: Stub, message: Message, now: real): Stub
  {
    match message.methodName
    case Some(methodName) =>
      HandleRequest(st.(record := st.record.(clientRequests := Note(st.record.clientRequests, methodName))), methodName,
                    message, now)
    case None => if IsAnswer(message) then RootsAnswer(st, message, now) else st
  }

  predicate ProbeDue(st: Stub, now: real)
  {
    && !st.record.complete && st.initializedAt.Some? && st.rootsSentAt.None?
    && (st.sawToolsList || now - st.initializedAt.value >= TOOLS_LIST_GRACE_SECONDS)
  }

  predicate WaitOver(st: Stub, rootsWait: real, now: real)
  {
    !st.record.complete && st.rootsSentAt.Some? && now - st.rootsSentAt.value >= rootsWait
  }

  function Tick(st: Stub, rootsWait: real, now: real): Stub
  {
    var roots := st.record.roots;
    if st.record.complete then st
    else if st.initializedAt.Some? && st.rootsSentAt.None? then
      if ProbeDue(st, now) then
        Send(st.(rootsSentAt := Some(now), record := st.record.(roots := roots.(sent := true, outcome := NoReply))),
             RootsProbe)
      else st
    else if WaitOver(st, rootsWait, now) then
      FinishRoots(st.(record := st.record.(roots := roots.(outcome := NoReply))), now)
    else if st.initializedAt.None? && st.initializeAt.Some?
        && now - st.initializeAt.value >= INITIALIZED_WAIT_SECONDS then
      st.(record := st.record.(roots := roots.(reason := Some("the client never sent notifications/initialized")),
                               complete := true))
    else st
  }

  function End(st: Stub): Stub
  {
    var record := st.record.(stdinClosed := true);
    if record.complete then st.(record := record)
    else st.(record := record.(roots := record.roots.(reason := Some("the client closed the connection first")),
                               complete := true))
  }

  /** An error that reaches the top of the server: recorded, and the record is final. */
  function Stop(st: Stub, error: string): Stub
  {
    st.(record := st.record.(error := Some(error), complete := true))
  }

  // ---------- Runs ----------

  /**
   One round of the serve loop, which handles a line if there is one and then ticks; a round whose reply or probe
   cannot be written, which ends the server; or the end of input.
  */
  datatype Event =
    | Round(message: Option<Message>, handledAt: real, tickedAt: real)
    | ReplyBroke(line: Message, brokeAt: real, error: string)
    | TickBroke(message: Option<Message>, handledAt: real, error: string)
    | EndOfInput

  function HandleIfAny(st: Stub, message: Option<Message>, now: real): Stub
  {
    match message
    case Some(line) => Handle(st, line, now)
    case None => st
  }

  function Step(st: Stub, event: Event, rootsWait: real): Stub
  {
    match event
    case Round(message, handledAt, tickedAt) => Tick(HandleIfAny(st, message, handledAt), rootsWait, tickedAt)
    case ReplyBroke(line, brokeAt, error) => Stop(Handle(st, line, brokeAt).(out := st.out), error)
    case TickBroke(message, handledAt, error) => Stop(HandleIfAny(st, message, handledAt), error)
    case EndOfInput => End(st)
  }

  function Run(events: seq<Event>, rootsWait: real): Stub
  {
    if events == [] then FIRST_STUB
    else Step(Run(events[..|events| - 1], rootsWait), events[|events| - 1], rootsWait)
  }

  /** The message handled in a round, if any. */
  function MessageOf(event: Event): Option<Message>
  {
    match event
    case Round(message, _, _) => message
    case ReplyBroke(line, _, _) => Some(line)
    case TickBroke(message, _, _) => message
    case EndOfInput => None
  }

  predicate HasMethod(event: Event, methodName: string)
  {
    MessageOf(event).Some? && MessageOf(event).value.methodName == Some(methodName)
  }

  predicate BringsAnswer(event: Event)
  {
    MessageOf(event).Some? && IsAnswer(MessageOf(event).value)
  }

  // ---------- The judge ----------

  datatype Problem = NeverInitialized | AnsweredBeforeAsked | ProbeNotFinished(detail: Option<string>) | RootsError

  function ServerProblems(server: Record): seq<Problem>
  {
    if !server.initialize.received then [NeverInitialized]
    else if server.roots.unrequestedAnswer then [AnsweredBeforeAsked]
    else if !server.probeFinished
    then [ProbeNotFinished(if server.roots.reason.Some? then server.roots.reason else server.error)]
    else if server.initialize.declaresRoots && server.roots.outcome == AnsweredError then [RootsError]
    else []
  }
}
