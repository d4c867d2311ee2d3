/** What the record of the evidence stub says, field by field, in terms of the events of its run alone. */
module McpEvents {
  import opened Options
  import opened McpProtocol
  import opened McpTheorems

  // ---------- Events ----------

  /** When the message of an event was handled. */
  function HandledAt(event: Event): real
  {
    match event
    case Round(_, handledAt, _) => handledAt
    case ReplyBroke(_, brokeAt, _) => brokeAt
    case TickBroke(_, handledAt, _) => handledAt
    case EndOfInput => 0.0
  }

  /** Event k brings the last message with this method. */
  ghost predicate LastWith(events: seq<Event>, methodName: string, k: nat)
  {
    && k < |events| && HasMethod(events[k], methodName)
    && forall j :: k < j < |events| ==> !HasMethod(events[j], methodName)
  }

  /** A message without a method, with the probe's id, and with a result or an error. */
  lemma AnswersExactly(event: Event)
    ensures BringsAnswer(event) <==>
              MessageOf(event).Some? &&
              var message := MessageOf(event).value;
              && message.methodName.None? && message.ident == Id("alice-evidence-roots-1")
              && (message.hasResult || message.error != NoError)
  {
  }

  /** The state after the message of an event, before its tick or its end. */
  ghost function AfterMessage(st: Stub, event: Event): Stub
  {
    match event
    case Round(message, handledAt, _) => HandleIfAny(st, message, handledAt)
    case ReplyBroke(line, brokeAt, _) => Handle(st, line, brokeAt).(out := st.out)
    case TickBroke(message, handledAt, _) => HandleIfAny(st, message, handledAt)
    case EndOfInput => st
  }

  lemma StepIsMessageThenRest(st: Stub, event: Event, rootsWait: real)
    ensures Step(st, event, rootsWait) ==
            match event
            case Round(_, _, tickedAt) => Tick(AfterMessage(st, event), rootsWait, tickedAt)
            case ReplyBroke(_, _, error) => Stop(AfterMessage(st, event), error)
            case TickBroke(_, _, error) => Stop(AfterMessage(st, event), error)
            case EndOfInput => End(AfterMessage(st, event))
  {
    hide Handle, HandleIfAny, Tick, Stop, End;
  }

  // ---------- What the last initialize and the last initialized leave ----------

  ghost predicate MarksAfter(st: Stub, next: Stub, event: Event)
  {
    && next.record.initialize == (if HasMethod(event, "initialize")
                                  then Initialize(true, MessageOf(event).value.params.declaresRoots)
                                  else st.record.initialize)
    && next.initializeAt == (if HasMethod(event, "initialize") then Some(HandledAt(event)) else st.initializeAt)
    && next.initializedAt
       == (if HasMethod(event, "notifications/initialized") then Some(HandledAt(event)) else st.initializedAt)
  }

  lemma HandleMarks(st: Stub, message: Message, now: real)
    ensures var next, named := Handle(st, message, now), message.methodName;
            && next.record.initialize == (if named == Some("initialize")
                                          then Initialize(true, message.params.declaresRoots)
                                          else st.record.initialize)
            && next.initializeAt == (if named == Some("initialize") then Some(now) else st.initializeAt)
            && next.initializedAt == (if named == Some("notifications/initialized") then Some(now)
                                      else st.initializedAt)
  {
    hide EmptyListKey;
    assert "initialize"[0] != "notifications/initialized"[0];
  }

  lemma RestKeepsMarks(st: Stub, rootsWait: real, now: real, error: string)
    ensures SameMarks(st, Tick(st, rootsWait, now)) && Tick(st, rootsWait, now).initializeAt == st.initializeAt
    ensures SameMarks(st, Stop(st, error)) && Stop(st, error).initializeAt == st.initializeAt
    ensures SameMarks(st, End(st)) && End(st).initializeAt == st.initializeAt
  {
  }

  lemma StepMarks(st: Stub, event: Event, rootsWait: real)
    ensures MarksAfter(st, Step(st, event, rootsWait), event)
  {
    hide Handle, Tick, Stop, End;
    StepIsMessageThenRest(st, event, rootsWait);
    if MessageOf(event).Some? {
      HandleMarks(st, MessageOf(event).value, HandledAt(event));
    }
    RestKeepsMarks(AfterMessage(st, event), rootsWait, if event.Round? then event.tickedAt else 0.0,
                   if event.ReplyBroke? || event.TickBroke? then event.error else "");
  }

  lemma RunStep(events: seq<Event>, rootsWait: real)
    requires events != []
    ensures Run(events, rootsWait)
            == Step(Run(events[..|events| - 1], rootsWait), events[|events| - 1], rootsWait)
  {
    hide Step;
  }

  lemma LastWithStep(events: seq<Event>, methodName: string, k: nat)
    requires LastWith(events, methodName, k)
    ensures k == |events| - 1
            || (!HasMethod(events[|events| - 1], methodName) && LastWith(events[..|events| - 1], methodName, k))
  {
    hide HasMethod;
  }

  /** The record holds the declaration of the last initialize, and its time. */
  lemma {:induction false} DeclaredByTheLast(events: seq<Event>, rootsWait: real, k: nat)
    requires LastWith(events, "initialize", k)
    ensures Run(events, rootsWait).record.initialize
            == Initialize(true, MessageOf(events[k]).value.params.declaresRoots)
    ensures Run(events, rootsWait).initializeAt == Some(HandledAt(events[k]))
  {
    hide Step, HasMethod, Run;
    var last := |events| - 1;
    RunStep(events, rootsWait);
    StepMarks(Run(events[..last], rootsWait), events[last], rootsWait);
    LastWithStep(events, "initialize", k);
    if k < last {
      DeclaredByTheLast(events[..last], rootsWait, k);
    }
  }

  lemma {:induction false} InitializedByTheLast(events: seq<Event>, rootsWait: real, k: nat)
    requires LastWith(events, "notifications/initialized", k)
    ensures Run(events, rootsWait).initializedAt == Some(HandledAt(events[k]))
  {
    hide Step, HasMethod, Run;
    var last := |events| - 1;
    RunStep(events, rootsWait);
    StepMarks(Run(events[..last], rootsWait), events[last], rootsWait);
    LastWithStep(events, "notifications/initialized", k);
    if k < last {
      InitializedByTheLast(events[..last], rootsWait, k);
    }
  }

  /** A method that came in came in a last time. */
  lemma {:induction false} SomeLast(events: seq<Event>, methodName: string)
    ensures CameIn(events, methodName) <==> exists k: nat :: LastWith(events, methodName, k)
  {
    hide HasMethod;
    if k: nat :| LastWith(events, methodName, k) {
      assert CameIn(events, methodName);
    }
    if events != [] && CameIn(events, methodName) {
      var last := |events| - 1;
      if HasMethod(events[last], methodName) {
        assert LastWith(events, methodName, last);
      } else {
        SomeLast(events[..last], methodName);
        CameInStep(events, methodName);
        var k: nat :| LastWith(events[..last], methodName, k);
        assert LastWith(events, methodName, k);
      }
    }
  }

  // ---------- The outcome ----------

  ghost predicate ProbeBefore(events: seq<Event>, rootsWait: real, k: nat)
  {
    exists j: nat :: j < k && WritesProbeAt(events, rootsWait, j)
  }

  lemma SentBefore(events: seq<Event>, rootsWait: real, k: nat)
    requires k <= |events|
    ensures Run(events[..k], rootsWait).rootsSentAt.Some? <==> ProbeBefore(events, rootsWait, k)
  {
    hide Run, WritesProbe;
    SentIsWritten(events[..k], rootsWait);
    forall j: nat | j < k
      ensures WritesProbeAt(events[..k], rootsWait, j) <==> WritesProbeAt(events, rootsWait, j)
    {
      assert events[..k][..j] == events[..j];
    }
  }

  /** An answer or an error that came in after the probe had been written. */
  ghost predicate AnswersProbeAt(events: seq<Event>, rootsWait: real, k: nat)
  {
    k < |events| && BringsAnswer(events[k]) && ProbeBefore(events, rootsWait, k)
  }

  ghost predicate LastAnswer(events: seq<Event>, rootsWait: real, k: nat)
  {
    AnswersProbeAt(events, rootsWait, k) && forall j: nat :: k < j ==> !AnswersProbeAt(events, rootsWait, j)
  }

  /** The message carries an error object. */
  predicate CarriesError(event: Event)
  {
    MessageOf(event).Some? && MessageOf(event).value.error.ErrorObject?
  }

  ghost predicate OutcomeAfter(st: Stub, next: Stub, event: Event)
  {
    var roots, was := next.record.roots, st.record.roots;
    if BringsAnswer(event) && st.rootsSentAt.Some? then
      var message := MessageOf(event).value;
      if message.error.ErrorObject? then roots.outcome.AnsweredError? && roots.errorCode == message.error.code
      else roots.outcome.Answered? && roots.rootCount == Some(message.resultRoots)
    else
      && roots.outcome == (if WritesProbe(st, event) then NoReply else was.outcome)
      && roots.errorCode == was.errorCode && roots.rootCount == was.rootCount
  }

  lemma RequestKeepsRoots(st: Stub, methodName: string, message: Message, now: real)
    ensures var next := HandleRequest(st, methodName, message, now);
            && next.record.roots == st.record.roots && next.rootsSentAt == st.rootsSentAt
            && next.record.complete == st.record.complete && next.record.probeFinished == st.record.probeFinished
            && next.record.clientRequests == st.record.clientRequests && next.record.error == st.record.error
            && next.record.stdinClosed == st.record.stdinClosed
  {
    hide EmptyListKey;
  }

  lemma HandleOutcome(st: Stub, message: Message, now: real)
    ensures var next, roots := Handle(st, message, now), Handle(st, message, now).record.roots;
            && next.rootsSentAt == st.rootsSentAt
            && (if IsAnswer(message) && st.rootsSentAt.Some? then
                  && next.record.complete
                  && (message.error.ErrorObject? ==>
                        roots.outcome.AnsweredError? && roots.errorCode == message.error.code)
                  && (!message.error.ErrorObject? ==>
                        roots.outcome.Answered? && roots.rootCount == Some(message.resultRoots))
                else
                  roots.outcome == st.record.roots.outcome && roots.errorCode == st.record.roots.errorCode
                  && roots.rootCount == st.record.roots.rootCount && next.record.complete == st.record.complete)
  {
    hide HandleRequest;
    if message.methodName.Some? {
      var requests := Note(st.record.clientRequests, message.methodName.value);
      RequestKeepsRoots(st.(record := st.record.(clientRequests := requests)), message.methodName.value, message, now);
    }
  }

  lemma StepOutcome(st: Stub, event: Event, rootsWait: real)
    requires Inv(st)
    ensures OutcomeAfter(st, Step(st, event, rootsWait), event)
  {
    hide Handle, HandleIfAny, IsAnswer, Tick, Stop, End, Inv;
    StepIsMessageThenRest(st, event, rootsWait);
    MessageOutcome(st, event);
    var after := AfterMessage(st, event);
    TickOutcome(after, rootsWait, if event.Round? then event.tickedAt else 0.0);
    EndingsKeepOutcome(after, if event.ReplyBroke? || event.TickBroke? then event.error else "");
    ProbeAfterMessage(st, event);
  }

  lemma ProbeAfterMessage(st: Stub, event: Event)
    ensures WritesProbe(st, event) <==> event.Round? && ProbeDue(AfterMessage(st, event), event.tickedAt)
  {
    hide HandleIfAny, ProbeDue;
  }

  lemma MessageOutcome(st: Stub, event: Event)
    requires Inv(st)
    ensures var after := AfterMessage(st, event);
            && Inv(after) && after.rootsSentAt == st.rootsSentAt
            && (BringsAnswer(event) && st.rootsSentAt.Some? ==>
                  after.record.complete && OutcomeAfter(st, after, event))
            && (!(BringsAnswer(event) && st.rootsSentAt.Some?) ==>
                  && after.record.roots.outcome == st.record.roots.outcome
                  && after.record.roots.errorCode == st.record.roots.errorCode
                  && after.record.roots.rootCount == st.record.roots.rootCount)
  {
    hide Handle, IsAnswer, WritesProbe;
    if MessageOf(event).Some? {
      HandleOutcome(st, MessageOf(event).value, HandledAt(event));
      HandleKeeps(st, MessageOf(event).value, HandledAt(event));
    }
  }

  lemma TickOutcome(st: Stub, rootsWait: real, now: real)
    requires Inv(st)
    ensures var next, roots := Tick(st, rootsWait, now).record.roots, st.record.roots;
            && next.outcome == (if ProbeDue(st, now) then NoReply else roots.outcome)
            && next.errorCode == roots.errorCode && next.rootCount == roots.rootCount
  {
    hide Probes;
    if !st.record.complete && st.initializedAt.Some? && st.rootsSentAt.None? {
    } else if WaitOver(st, rootsWait, now) {
    } else {
    }
  }

  lemma EndingsKeepOutcome(st: Stub, error: string)
    ensures Stop(st, error).record.roots == st.record.roots
    ensures var next, roots := End(st).record.roots, st.record.roots;
            next.outcome == roots.outcome && next.errorCode == roots.errorCode && next.rootCount == roots.rootCount
  {
  }

  lemma LastOutcome(events: seq<Event>, rootsWait: real)
    requires events != []
    ensures OutcomeAfter(Run(events[..|events| - 1], rootsWait), Run(events, rootsWait), events[|events| - 1])
  {
    hide Step, Run, Inv, OutcomeAfter;
    RunKeeps(events[..|events| - 1], rootsWait);
    RunStep(events, rootsWait);
    StepOutcome(Run(events[..|events| - 1], rootsWait), events[|events| - 1], rootsWait);
  }

  /** Events of a run with its last event taken off are those of the run. */
  lemma SameWithoutLast(events: seq<Event>, rootsWait: real, k: nat)
    requires events != [] && k < |events| - 1
    ensures WritesProbeAt(events[..|events| - 1], rootsWait, k) <==> WritesProbeAt(events, rootsWait, k)
    ensures AnswersProbeAt(events[..|events| - 1], rootsWait, k) <==> AnswersProbeAt(events, rootsWait, k)
  {
    hide Run, WritesProbe, BringsAnswer;
    var before := events[..|events| - 1];
    Prefixes(events, k);
    forall j: nat | j < k ensures WritesProbeAt(before, rootsWait, j) <==> WritesProbeAt(events, rootsWait, j) {
      Prefixes(events, j);
    }
  }

  /** The last answer decides the outcome: an error object makes it an error, anything else an answer. */
  lemma {:induction false} LastAnswerDecides(events: seq<Event>, rootsWait: real, k: nat)
    requires LastAnswer(events, rootsWait, k)
    ensures var roots, message := Run(events, rootsWait).record.roots, MessageOf(events[k]).value;
            && (message.error.ErrorObject? ==>
                  roots.outcome.AnsweredError? && roots.errorCode == message.error.code)
            && (!message.error.ErrorObject? ==>
                  roots.outcome.Answered? && roots.rootCount == Some(message.resultRoots))
  {
    hide Run, WritesProbe, BringsAnswer;
    var last := |events| - 1;
    LastOutcome(events, rootsWait);
    SentBefore(events, rootsWait, last);
    if k < last {
      forall j: nat | j < last
        ensures AnswersProbeAt(events[..last], rootsWait, j) <==> AnswersProbeAt(events, rootsWait, j)
      {
        SameWithoutLast(events, rootsWait, j);
      }
      assert LastAnswer(events[..last], rootsWait, k);
      LastAnswerDecides(events[..last], rootsWait, k);
      assert !AnswersProbeAt(events, rootsWait, last);
      ProbeIsWrittenOnce(events, rootsWait, k, last);
    }
  }

  lemma ProbeIsWrittenOnce(events: seq<Event>, rootsWait: real, k: nat, last: nat)
    requires AnswersProbeAt(events, rootsWait, k) && k < last < |events|
    ensures !WritesProbe(Run(events[..last], rootsWait), events[last])
  {
    hide Run, Step, Inv;
    var j: nat :| j < k && WritesProbeAt(events, rootsWait, j);
    assert ProbeBefore(events, rootsWait, last);
    SentBefore(events, rootsWait, last);
    RunKeeps(events[..last], rootsWait);
    StepAnswers(Run(events[..last], rootsWait), events[last], rootsWait);
  }

  /** Without an answer to it, the probe has no reply, and without a probe nothing was sent. */
  lemma {:induction false} NoAnswerNoOutcome(events: seq<Event>, rootsWait: real)
    requires !exists k: nat :: AnswersProbeAt(events, rootsWait, k)
    ensures Run(events, rootsWait).record.roots.outcome
            == if ProbeBefore(events, rootsWait, |events|) then NoReply else NotSent
  {
    hide Run, WritesProbe, BringsAnswer;
    NothingYet(rootsWait);
    if events != [] {
      var last := |events| - 1;
      var before := events[..last];
      LastOutcome(events, rootsWait);
      SentBefore(events, rootsWait, last);
      forall j: nat | j < last
        ensures AnswersProbeAt(before, rootsWait, j) <==> AnswersProbeAt(events, rootsWait, j)
        ensures WritesProbeAt(before, rootsWait, j) <==> WritesProbeAt(events, rootsWait, j)
      {
        SameWithoutLast(events, rootsWait, j);
      }
      NoAnswerNoOutcome(before, rootsWait);
      assert !AnswersProbeAt(events, rootsWait, last);
      assert WritesProbeAt(events, rootsWait, last) <==> WritesProbe(Run(before, rootsWait), events[last]);
    }
  }

  lemma {:induction false} SomeLastAnswer(events: seq<Event>, rootsWait: real, n: nat)
    requires forall k: nat :: n <= k ==> !AnswersProbeAt(events, rootsWait, k)
    requires exists k: nat :: AnswersProbeAt(events, rootsWait, k)
    ensures exists k: nat :: LastAnswer(events, rootsWait, k)
  {
    hide AnswersProbeAt;
    if n > 0 && !AnswersProbeAt(events, rootsWait, n - 1) {
      SomeLastAnswer(events, rootsWait, n - 1);
    } else if n > 0 {
      assert LastAnswer(events, rootsWait, n - 1);
    }
  }

  /** The outcome, from the events alone. */
  lemma OutcomeSays(events: seq<Event>, rootsWait: real)
    ensures var outcome := Run(events, rootsWait).record.roots.outcome;
            && (outcome.NotSent? <==> !exists j: nat :: WritesProbeAt(events, rootsWait, j))
            && (outcome.NoReply? <==> (exists j: nat :: WritesProbeAt(events, rootsWait, j))
                                      && !exists k: nat :: AnswersProbeAt(events, rootsWait, k))
            && (outcome.AnsweredError? <==>
                  exists k: nat :: LastAnswer(events, rootsWait, k) && CarriesError(events[k]))
            && (outcome.Answered? <==>
                  exists k: nat :: LastAnswer(events, rootsWait, k) && !CarriesError(events[k]))
  {
    hide Run, WritesProbe, BringsAnswer;
    if exists k: nat :: AnswersProbeAt(events, rootsWait, k) {
      SomeLastAnswer(events, rootsWait, |events|);
      var k: nat :| LastAnswer(events, rootsWait, k);
      LastAnswerDecides(events, rootsWait, k);
      AnswersExactly(events[k]);
      forall i: nat | LastAnswer(events, rootsWait, i) ensures i == k {
      }
    } else {
      NoAnswerNoOutcome(events, rootsWait);
    }
  }
}
