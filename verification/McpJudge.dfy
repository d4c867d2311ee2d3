/** When the stub's record is final, why, and what the judge says of it: all from the events of the run. */
module McpJudge {
  import opened Options
  import opened McpProtocol
  import opened McpTheorems
  import opened McpEvents

  // ---------- When the record is final ----------

  ghost predicate GivesUp(st: Stub, event: Event)
  {
    event.Round? &&
    var after := AfterMessage(st, event);
    && after.initializedAt.None? && after.initializeAt.Some?
    && event.tickedAt - after.initializeAt.value >= INITIALIZED_WAIT_SECONDS
  }

  /** Ten seconds after the last initialize, still nothing says that the client is initialized. */
  ghost predicate GivesUpAt(events: seq<Event>, k: nat)
  {
    && k < |events| && events[k].Round? && !CameIn(events[..k + 1], "notifications/initialized")
    && exists i: nat :: LastWith(events[..k + 1], "initialize", i)
                        && events[k].tickedAt - HandledAt(events[i]) >= 10.0
  }

  lemma MarksOfStep(st: Stub, event: Event, rootsWait: real)
    ensures var next, after := Step(st, event, rootsWait), AfterMessage(st, event);
            && next.initializedAt == after.initializedAt && next.initializeAt == after.initializeAt
            && next.sawToolsList == after.sawToolsList
  {
    hide AfterMessage, Tick, Stop, End;
    StepIsMessageThenRest(st, event, rootsWait);
    RestKeepsMarks(AfterMessage(st, event), rootsWait, if event.Round? then event.tickedAt else 0.0,
                   if event.ReplyBroke? || event.TickBroke? then event.error else "");
  }

  /** The state after the message of event k has the marks of the run up to and with event k. */
  lemma MarksAt(events: seq<Event>, rootsWait: real, k: nat)
    requires k < |events|
    ensures var after, next := AfterMessage(Run(events[..k], rootsWait), events[k]), Run(events[..k + 1], rootsWait);
            && next.initializedAt == after.initializedAt && next.initializeAt == after.initializeAt
            && next.sawToolsList == after.sawToolsList
  {
    hide Run, Step, AfterMessage;
    var upTo := events[..k + 1];
    assert upTo[..|upTo| - 1] == events[..k] && upTo[|upTo| - 1] == events[k];
    RunStep(upTo, rootsWait);
    MarksOfStep(Run(events[..k], rootsWait), events[k], rootsWait);
  }

  lemma GivesUpExactly(events: seq<Event>, rootsWait: real, k: nat)
    requires k < |events|
    ensures GivesUp(Run(events[..k], rootsWait), events[k]) <==> GivesUpAt(events, k)
  {
    hide Run, AfterMessage, CameIn, LastWith;
    var upTo := events[..k + 1];
    MarksAt(events, rootsWait, k);
    MarksAreEvents(upTo, rootsWait);
    SomeLast(upTo, "initialize");
    forall i: nat | LastWith(upTo, "initialize", i)
      ensures i <= k && Run(upTo, rootsWait).initializeAt == Some(HandledAt(events[i]))
    {
      LastIsThere(upTo, "initialize", i);
      DeclaredByTheLast(upTo, rootsWait, i);
    }
    if !CameIn(upTo, "initialize") {
      NoInitializeNoTime(upTo, rootsWait);
    }
  }

  lemma LastIsThere(events: seq<Event>, methodName: string, k: nat)
    requires LastWith(events, methodName, k)
    ensures k < |events|
  {
  }

  lemma {:induction false} NoInitializeNoTime(events: seq<Event>, rootsWait: real)
    requires !CameIn(events, "initialize")
    ensures Run(events, rootsWait).initializeAt.None? && !Run(events, rootsWait).record.initialize.declaresRoots
  {
    hide Run, Step, CameIn;
    NothingYet(rootsWait);
    if events != [] {
      var last := |events| - 1;
      CameInStep(events, "initialize");
      NoInitializeNoTime(events[..last], rootsWait);
      RunStep(events, rootsWait);
      StepMarks(Run(events[..last], rootsWait), events[last], rootsWait);
    }
  }

  lemma StepCompletes(st: Stub, event: Event, rootsWait: real)
    requires Inv(st)
    ensures Step(st, event, rootsWait).record.complete
            <==> st.record.complete || !event.Round? || EndsProbe(st, event, rootsWait) || GivesUp(st, event)
  {
    hide Handle, IsAnswer;
    StepIsMessageThenRest(st, event, rootsWait);
    if MessageOf(event).Some? {
      HandleIsHandled(st, MessageOf(event).value, HandledAt(event));
      HandleKeeps(st, MessageOf(event).value, HandledAt(event));
    }
  }

  ghost predicate CompletesAt(events: seq<Event>, rootsWait: real, k: nat)
  {
    k < |events| && (!events[k].Round? || EndsProbeAt(events, rootsWait, k) || GivesUpAt(events, k))
  }

  lemma SameGivingUp(events: seq<Event>, n: nat, k: nat)
    requires k < n <= |events|
    ensures GivesUpAt(events[..n], k) <==> GivesUpAt(events, k)
  {
    hide CameIn, LastWith;
    var upTo := events[..k + 1];
    assert events[..n][..k + 1] == upTo;
    forall i: nat | LastWith(upTo, "initialize", i) ensures i <= k {
      LastIsThere(upTo, "initialize", i);
    }
  }

  lemma SameCompletion(events: seq<Event>, rootsWait: real, n: nat, k: nat)
    requires k < n <= |events|
    ensures CompletesAt(events[..n], rootsWait, k) <==> CompletesAt(events, rootsWait, k)
    ensures EndsProbeAt(events[..n], rootsWait, k) <==> EndsProbeAt(events, rootsWait, k)
  {
    hide Run, EndsProbe, GivesUpAt;
    assert events[..n][..k] == events[..k];
    SameGivingUp(events, n, k);
  }

  /** The record is final exactly when the probe ended, or the stub gave up, or an event ended the server. */
  lemma {:induction false} CompleteExactly(events: seq<Event>, rootsWait: real)
    ensures Run(events, rootsWait).record.complete <==> exists k: nat :: CompletesAt(events, rootsWait, k)
  {
    hide Run, Step, Inv, EndsProbe, GivesUp, GivesUpAt;
    NothingYet(rootsWait);
    if events != [] {
      var last := |events| - 1;
      CompleteExactly(events[..last], rootsWait);
      forall k: nat | k < last
        ensures CompletesAt(events[..last], rootsWait, k) <==> CompletesAt(events, rootsWait, k)
      {
        SameCompletion(events, rootsWait, last, k);
      }
      RunKeeps(events[..last], rootsWait);
      RunStep(events, rootsWait);
      StepCompletes(Run(events[..last], rootsWait), events[last], rootsWait);
      GivesUpExactly(events, rootsWait, last);
      assert CompletesAt(events, rootsWait, last)
             <==> !events[last].Round? || EndsProbeAt(events, rootsWait, last) || GivesUpAt(events, last);
    }
  }

  // ---------- When the probe is written ----------

  /** Nothing before event k ended the server or made it give up. */
  ghost predicate StillOpen(events: seq<Event>, k: nat)
  {
    forall i :: 0 <= i < k <= |events| ==> events[i].Round? && !GivesUpAt(events, i)
  }

  ghost predicate InitializedLongEnough(events: seq<Event>, k: nat)
    requires k < |events| && events[k].Round?
  {
    exists i: nat :: LastWith(events[..k + 1], "notifications/initialized", i)
                     && (CameIn(events[..k + 1], "tools/list") || events[k].tickedAt - HandledAt(events[i]) >= 1.5)
  }

  lemma OpenWithoutProbe(events: seq<Event>, rootsWait: real, k: nat)
    requires k <= |events| && !ProbeBefore(events, rootsWait, k)
    ensures Run(events[..k], rootsWait).record.complete <==> !StillOpen(events, k)
  {
    hide Run, BringsAnswer, GivesUpAt, WritesProbe;
    CompleteExactly(events[..k], rootsWait);
    forall i: nat | i < k
      ensures CompletesAt(events[..k], rootsWait, i) <==> !events[i].Round? || GivesUpAt(events, i)
    {
      SameCompletion(events, rootsWait, k, i);
      SentBefore(events, rootsWait, i);
    }
  }

  lemma MessageLeavesOpen(st: Stub, event: Event)
    requires st.rootsSentAt.None?
    ensures AfterMessage(st, event).record.complete == st.record.complete
    ensures AfterMessage(st, event).rootsSentAt.None?
  {
    hide Handle, IsAnswer;
    if MessageOf(event).Some? {
      HandleOutcome(st, MessageOf(event).value, HandledAt(event));
    }
  }

  lemma InitializedAtExactly(events: seq<Event>, rootsWait: real, k: nat)
    requires k < |events| && events[k].Round?
    ensures var after := AfterMessage(Run(events[..k], rootsWait), events[k]);
            InitializedLongEnough(events, k) <==>
              after.initializedAt.Some?
              && (after.sawToolsList || events[k].tickedAt - after.initializedAt.value >= 1.5)
  {
    hide Run, AfterMessage, CameIn, LastWith;
    var upTo := events[..k + 1];
    MarksAt(events, rootsWait, k);
    MarksAreEvents(upTo, rootsWait);
    SomeLast(upTo, "notifications/initialized");
    forall i: nat | LastWith(upTo, "notifications/initialized", i)
      ensures i <= k && Run(upTo, rootsWait).initializedAt == Some(HandledAt(events[i]))
    {
      LastIsThere(upTo, "notifications/initialized", i);
      InitializedByTheLast(upTo, rootsWait, i);
    }
  }

  /**
   The first open round in which the client is initialized and has listed the tools, or has been initialized for a
   second and a half, writes the probe, and no other round does.
  */
  lemma ProbeIsWrittenExactly(events: seq<Event>, rootsWait: real, k: nat)
    ensures WritesProbeAt(events, rootsWait, k) <==>
              && k < |events| && events[k].Round? && !ProbeBefore(events, rootsWait, k)
              && StillOpen(events, k) && InitializedLongEnough(events, k)
  {
    hide Run, StillOpen, InitializedLongEnough, Step, Inv;
    if k < |events| && events[k].Round? {
      var st := Run(events[..k], rootsWait);
      SentBefore(events, rootsWait, k);
      InitializedAtExactly(events, rootsWait, k);
      RunKeeps(events[..k], rootsWait);
      StepAnswers(st, events[k], rootsWait);
      if st.rootsSentAt.None? {
        OpenWithoutProbe(events, rootsWait, k);
        MessageLeavesOpen(st, events[k]);
      }
    }
  }

  // ---------- When the probe has finished ----------

  /** A round at least the whole wait after the one that wrote the probe, with nothing in between ending the server. */
  ghost predicate WaitedOutAt(events: seq<Event>, rootsWait: real, k: nat)
  {
    && k < |events| && (forall i :: 0 <= i <= k ==> events[i].Round?)
    && exists j: nat :: j < k && WritesProbeAt(events, rootsWait, j)
                        && events[k].tickedAt - events[j].tickedAt >= rootsWait
  }

  lemma WrittenBeforeIsSentAt(events: seq<Event>, rootsWait: real, j: nat, k: nat)
    requires j < k <= |events| && WritesProbeAt(events, rootsWait, j)
    ensures Run(events[..k], rootsWait).rootsSentAt == Some(events[j].tickedAt)
  {
    hide Run, WritesProbe;
    assert events[..k][..j] == events[..j];
    SentAtWriting(events[..k], rootsWait, j);
  }

  lemma NoGivingUpAroundProbe(events: seq<Event>, rootsWait: real, i: nat, j: nat)
    requires WritesProbeAt(events, rootsWait, j) && i < |events|
    ensures !GivesUpAt(events, i)
  {
    hide Run, WritesProbe, GivesUpAt, InitializedLongEnough;
    ProbeIsWrittenExactly(events, rootsWait, j);
    if i >= j {
      ProbeFollowsInitialized(events, rootsWait, j);
      CameInLonger(events, "notifications/initialized", j + 1, i + 1);
      NotGivenUp(events, i);
    }
  }

  lemma CameInLonger(events: seq<Event>, methodName: string, m: nat, n: nat)
    requires m <= n <= |events| && CameIn(events[..m], methodName)
    ensures CameIn(events[..n], methodName)
  {
    hide HasMethod;
    var k :| 0 <= k < m && HasMethod(events[..m][k], methodName);
    assert HasMethod(events[..n][k], methodName);
  }

  lemma NotGivenUp(events: seq<Event>, k: nat)
    requires k < |events| && CameIn(events[..k + 1], "notifications/initialized")
    ensures !GivesUpAt(events, k)
  {
    hide CameIn, LastWith;
  }

  /** The probe has finished exactly when it was answered or waited out. */
  lemma FinishedExactly(events: seq<Event>, rootsWait: real)
    ensures Run(events, rootsWait).record.probeFinished <==>
              exists k: nat :: AnswersProbeAt(events, rootsWait, k) || WaitedOutAt(events, rootsWait, k)
  {
    hide Run, WritesProbe, BringsAnswer, AnswersProbeAt, WaitedOutAt, EndsProbeAt;
    FinishedIsEnded(events, rootsWait);
    if k: nat :| EndsProbeAt(events, rootsWait, k) {
      EndIsAnswerOrWait(events, rootsWait, k);
    }
    if k: nat :| AnswersProbeAt(events, rootsWait, k) || WaitedOutAt(events, rootsWait, k) {
      var _ := AnswerOrWaitIsEnd(events, rootsWait, k);
    }
  }

  lemma EndIsAnswerOrWait(events: seq<Event>, rootsWait: real, k: nat)
    requires EndsProbeAt(events, rootsWait, k)
    ensures AnswersProbeAt(events, rootsWait, k) || WaitedOutAt(events, rootsWait, k)
  {
    hide Run, WritesProbe, BringsAnswer;
    SentBefore(events, rootsWait, k);
    var j: nat :| j < k && WritesProbeAt(events, rootsWait, j);
    WrittenBeforeIsSentAt(events, rootsWait, j, k);
    if !BringsAnswer(events[k]) {
      CompleteExactly(events[..k], rootsWait);
      forall i | 0 <= i < k ensures events[i].Round? {
        assert !CompletesAt(events[..k], rootsWait, i);
      }
    }
  }

  lemma AnswerOrWaitIsEnd(events: seq<Event>, rootsWait: real, k: nat) returns (i: nat)
    requires AnswersProbeAt(events, rootsWait, k) || WaitedOutAt(events, rootsWait, k)
    ensures EndsProbeAt(events, rootsWait, i)
  {
    hide Run, WritesProbe, BringsAnswer, GivesUpAt;
    i := k;
    SentBefore(events, rootsWait, k);
    if !AnswersProbeAt(events, rootsWait, k) {
      var j: nat :| j < k && WritesProbeAt(events, rootsWait, j)
                    && events[k].tickedAt - events[j].tickedAt >= rootsWait;
      WrittenBeforeIsSentAt(events, rootsWait, j, k);
      if Run(events[..k], rootsWait).record.complete {
        CompleteExactly(events[..k], rootsWait);
        i :| CompletesAt(events[..k], rootsWait, i);
        SameCompletion(events, rootsWait, k, i);
        NoGivingUpAroundProbe(events, rootsWait, i, j);
      }
    }
  }

  // ---------- How long the probe was waited for ----------

  ghost function WaitedAfter(st: Stub, event: Event, rootsWait: real): Option<real>
  {
    if EndsProbe(st, event, rootsWait)
    then Some((if BringsAnswer(event) then HandledAt(event) else event.tickedAt) - st.rootsSentAt.value)
    else st.record.roots.waitedSeconds
  }

  lemma HandleWaited(st: Stub, message: Message, now: real)
    ensures var next := Handle(st, message, now);
            && next.rootsSentAt == st.rootsSentAt
            && (if IsAnswer(message) && st.rootsSentAt.Some? then
                  next.record.complete && next.record.roots.waitedSeconds == Some(now - st.rootsSentAt.value)
                else
                  && next.record.roots.waitedSeconds == st.record.roots.waitedSeconds
                  && next.record.complete == st.record.complete)
  {
    hide HandleRequest;
    if message.methodName.Some? {
      var requests := Note(st.record.clientRequests, message.methodName.value);
      RequestKeepsRoots(st.(record := st.record.(clientRequests := requests)), message.methodName.value, message, now);
    }
  }

  lemma RestWaited(st: Stub, rootsWait: real, now: real, error: string)
    requires Inv(st)
    ensures Tick(st, rootsWait, now).record.roots.waitedSeconds
            == if !st.record.complete && st.rootsSentAt.Some? && now - st.rootsSentAt.value >= rootsWait
               then Some(now - st.rootsSentAt.value) else st.record.roots.waitedSeconds
    ensures Stop(st, error).record.roots.waitedSeconds == st.record.roots.waitedSeconds
    ensures End(st).record.roots.waitedSeconds == st.record.roots.waitedSeconds
  {
    hide Probes;
  }

  lemma StepWaits(st: Stub, event: Event, rootsWait: real)
    requires Inv(st)
    ensures Step(st, event, rootsWait).record.roots.waitedSeconds == WaitedAfter(st, event, rootsWait)
  {
    hide Handle, Tick, Stop, End, IsAnswer, Inv;
    StepIsMessageThenRest(st, event, rootsWait);
    if MessageOf(event).Some? {
      HandleWaited(st, MessageOf(event).value, HandledAt(event));
      HandleKeeps(st, MessageOf(event).value, HandledAt(event));
    }
    RestWaited(AfterMessage(st, event), rootsWait, if event.Round? then event.tickedAt else 0.0,
               if event.ReplyBroke? || event.TickBroke? then event.error else "");
  }

  /** The seconds waited run from the round that wrote the probe to the last event that ended it. */
  lemma {:induction false} WaitedFromProbe(events: seq<Event>, rootsWait: real, j: nat, k: nat)
    requires WritesProbeAt(events, rootsWait, j) && EndsProbeAt(events, rootsWait, k)
    requires forall i: nat :: k < i ==> !EndsProbeAt(events, rootsWait, i)
    ensures Run(events, rootsWait).record.roots.waitedSeconds
            == Some((if BringsAnswer(events[k]) then HandledAt(events[k]) else events[k].tickedAt) - events[j].tickedAt)
    decreases |events|
  {
    hide Run, Step, Inv, WritesProbe, EndsProbe, BringsAnswer;
    var last := |events| - 1;
    var before := events[..last];
    RunStep(events, rootsWait);
    RunKeeps(before, rootsWait);
    StepWaits(Run(before, rootsWait), events[last], rootsWait);
    ProbeIsEarlier(events, rootsWait, j, k);
    if k == last {
      WrittenBeforeIsSentAt(events, rootsWait, j, last);
    } else {
      forall i: nat | i < last ensures EndsProbeAt(before, rootsWait, i) <==> EndsProbeAt(events, rootsWait, i) {
        SameCompletion(events, rootsWait, last, i);
      }
      SameWithoutLast(events, rootsWait, j);
      WaitedFromProbe(before, rootsWait, j, k);
      assert !EndsProbeAt(events, rootsWait, last);
    }
  }

  /** There is one probe, so one that ended was written before its end. */
  lemma ProbeIsEarlier(events: seq<Event>, rootsWait: real, j: nat, k: nat)
    requires WritesProbeAt(events, rootsWait, j) && EndsProbeAt(events, rootsWait, k)
    ensures j < k
  {
    hide Run, WritesProbe, StillOpen, InitializedLongEnough;
    SentBefore(events, rootsWait, k);
    ProbeIsWrittenExactly(events, rootsWait, j);
  }

  // ---------- Why the record is final ----------

  /** What the serve loop takes: rounds, and at most one event that is none, at the end. */
  ghost predicate IsServed(events: seq<Event>)
  {
    forall i :: 0 <= i < |events| - 1 ==> events[i].Round?
  }

  ghost predicate GaveUp(events: seq<Event>)
  {
    exists k: nat :: GivesUpAt(events, k)
  }

  ghost predicate ReasonAfter(st: Stub, next: Stub, event: Event)
  {
    && next.record.roots.reason
       == (if !st.record.complete && GivesUp(st, event)
           then Some("the client never sent notifications/initialized")
           else if !st.record.complete && event.EndOfInput? then Some("the client closed the connection first")
           else st.record.roots.reason)
    && next.record.error
       == (if event.ReplyBroke? || event.TickBroke? then Some(event.error) else st.record.error)
    && next.record.stdinClosed == (st.record.stdinClosed || event.EndOfInput?)
  }

  lemma HandleKeepsReason(st: Stub, message: Message, now: real)
    ensures var next := Handle(st, message, now);
            && next.record.roots.reason == st.record.roots.reason && next.record.error == st.record.error
            && next.record.stdinClosed == st.record.stdinClosed
  {
    hide HandleRequest, IsAnswer;
    if message.methodName.Some? {
      var requests := Note(st.record.clientRequests, message.methodName.value);
      RequestKeepsRoots(st.(record := st.record.(clientRequests := requests)), message.methodName.value, message, now);
    }
  }

  lemma RestReason(st: Stub, rootsWait: real, now: real, error: string)
    requires Inv(st)
    ensures var next, late := Tick(st, rootsWait, now), st.initializedAt.None? && st.initializeAt.Some?
                                                        && now - st.initializeAt.value >= 10.0;
            && next.record.roots.reason
               == (if !st.record.complete && late then Some("the client never sent notifications/initialized")
                   else st.record.roots.reason)
            && next.record.error == st.record.error && next.record.stdinClosed == st.record.stdinClosed
    ensures var next := Stop(st, error);
            && next.record.roots.reason == st.record.roots.reason && next.record.error == Some(error)
            && next.record.stdinClosed == st.record.stdinClosed
    ensures var next := End(st);
            && next.record.roots.reason
               == (if !st.record.complete then Some("the client closed the connection first")
                   else st.record.roots.reason)
            && next.record.error == st.record.error && next.record.stdinClosed
  {
    hide Probes;
  }

  lemma MessageReason(st: Stub, event: Event)
    requires Inv(st)
    ensures var after := AfterMessage(st, event);
            && Inv(after) && after.record.roots.reason == st.record.roots.reason
            && after.record.error == st.record.error && after.record.stdinClosed == st.record.stdinClosed
            && (after.initializedAt.None? ==> after.record.complete == st.record.complete)
  {
    hide Handle, IsAnswer, Probes;
    if MessageOf(event).Some? {
      HandleKeepsReason(st, MessageOf(event).value, HandledAt(event));
      HandleIsHandled(st, MessageOf(event).value, HandledAt(event));
      HandleKeeps(st, MessageOf(event).value, HandledAt(event));
    }
  }

  lemma StepReason(st: Stub, event: Event, rootsWait: real)
    requires Inv(st)
    ensures ReasonAfter(st, Step(st, event, rootsWait), event)
  {
    hide Handle, HandleIfAny, Tick, Stop, End, Inv;
    StepIsMessageThenRest(st, event, rootsWait);
    MessageReason(st, event);
    RestReason(AfterMessage(st, event), rootsWait, if event.Round? then event.tickedAt else 0.0,
               if event.ReplyBroke? || event.TickBroke? then event.error else "");
  }

  lemma LastReason(events: seq<Event>, rootsWait: real)
    requires events != []
    ensures ReasonAfter(Run(events[..|events| - 1], rootsWait), Run(events, rootsWait), events[|events| - 1])
    ensures GivesUp(Run(events[..|events| - 1], rootsWait), events[|events| - 1])
            <==> GivesUpAt(events, |events| - 1)
  {
    hide Step, Run, Inv, ReasonAfter, GivesUp, GivesUpAt;
    RunKeeps(events[..|events| - 1], rootsWait);
    RunStep(events, rootsWait);
    StepReason(Run(events[..|events| - 1], rootsWait), events[|events| - 1], rootsWait);
    GivesUpExactly(events, rootsWait, |events| - 1);
  }

  lemma GaveUpStep(events: seq<Event>)
    requires events != []
    ensures GaveUp(events) <==> GaveUp(events[..|events| - 1]) || GivesUpAt(events, |events| - 1)
  {
    hide GivesUpAt;
    var last := |events| - 1;
    forall k: nat | k < last ensures GivesUpAt(events[..last], k) <==> GivesUpAt(events, k) {
      SameGivingUp(events, last, k);
    }
    forall k: nat | last <= k ensures !GivesUpAt(events[..last], k) && (k > last ==> !GivesUpAt(events, k)) {
      NotAnEvent(events[..last], k);
      if k > last {
        NotAnEvent(events, k);
      }
    }
  }

  lemma NotAnEvent(events: seq<Event>, k: nat)
    requires k >= |events|
    ensures !GivesUpAt(events, k)
  {
  }

  /** After rounds alone, the record is final before it is given up only when it was given up before. */
  lemma GivenUpOrFinished(events: seq<Event>, rootsWait: real)
    requires forall i :: 0 <= i < |events| ==> events[i].Round?
    ensures var record := Run(events, rootsWait).record;
            record.complete <==> GaveUp(events) || record.probeFinished
  {
    hide Run, EndsProbeAt, GivesUpAt;
    CompleteExactly(events, rootsWait);
    FinishedIsEnded(events, rootsWait);
    forall k: nat ensures CompletesAt(events, rootsWait, k) <==>
                            k < |events| && (EndsProbeAt(events, rootsWait, k) || GivesUpAt(events, k))
    {
    }
    forall k: nat | k >= |events| ensures !GivesUpAt(events, k) && !EndsProbeAt(events, rootsWait, k) {
      NotAnEvent(events, k);
      NoEndThere(events, rootsWait, k);
    }
  }

  lemma NoEndThere(events: seq<Event>, rootsWait: real, k: nat)
    requires k >= |events|
    ensures !EndsProbeAt(events, rootsWait, k)
  {
  }

  lemma GivingUpIsNotFinishing(events: seq<Event>, rootsWait: real, k: nat)
    requires GivesUpAt(events, k) && k + 1 == |events|
    ensures !Run(events[..k], rootsWait).record.probeFinished
  {
    hide Run, Inv, BringsAnswer, WritesProbe;
    if Run(events[..k], rootsWait).record.probeFinished {
      RunKeeps(events[..k], rootsWait);
      SentBeforeFinish(Run(events[..k], rootsWait));
      SentBefore(events, rootsWait, k);
      var j: nat :| j < k && WritesProbeAt(events, rootsWait, j);
      NoGivingUpAroundProbe(events, rootsWait, k, j);
    }
  }

  lemma SentBeforeFinish(st: Stub)
    requires Inv(st) && st.record.probeFinished
    ensures st.rootsSentAt.Some?
  {
  }

  lemma {:induction false} ReasonOfRounds(events: seq<Event>, rootsWait: real)
    requires forall i :: 0 <= i < |events| ==> events[i].Round?
    ensures var record := Run(events, rootsWait).record;
            && record.roots.reason
               == (if GaveUp(events) then Some("the client never sent notifications/initialized") else None)
            && record.error.None? && !record.stdinClosed
  {
    hide Run, GivesUp, GivesUpAt;
    NothingYet(rootsWait);
    if events == [] {
      forall k: nat {
        NotAnEvent(events, k);
      }
    } else {
      var last := |events| - 1;
      ReasonOfRounds(events[..last], rootsWait);
      LastReason(events, rootsWait);
      GaveUpStep(events);
      GivenUpOrFinished(events[..last], rootsWait);
      if GivesUpAt(events, last) {
        GivingUpIsNotFinishing(events, rootsWait, last);
      }
    }
  }

  /** The reason and the error that a served run leaves. */
  lemma ReasonSays(events: seq<Event>, rootsWait: real)
    requires IsServed(events)
    ensures var record, last := Run(events, rootsWait).record, |events| - 1;
            && record.roots.reason
               == (if GaveUp(events) then Some("the client never sent notifications/initialized")
                   else if events != [] && events[last].EndOfInput? && !record.probeFinished
                   then Some("the client closed the connection first") else None)
            && record.error == (if events != [] && (events[last].ReplyBroke? || events[last].TickBroke?)
                                then Some(events[last].error) else None)
            && (record.stdinClosed <==> events != [] && events[last].EndOfInput?)
  {
    hide Run, GivesUp, GivesUpAt, GaveUp;
    if events == [] || events[|events| - 1].Round? {
      ReasonOfRounds(events, rootsWait);
    } else {
      var last := |events| - 1;
      ReasonOfRounds(events[..last], rootsWait);
      LastReason(events, rootsWait);
      GaveUpStep(events);
      NotARound(events, last);
      GivenUpOrFinished(events[..last], rootsWait);
      if events[last].EndOfInput? {
        EndKeepsFinish(events, rootsWait);
      }
    }
  }

  lemma NotARound(events: seq<Event>, k: nat)
    requires k < |events| && !events[k].Round?
    ensures !GivesUpAt(events, k)
  {
  }

  lemma EndKeepsFinish(events: seq<Event>, rootsWait: real)
    requires events != [] && events[|events| - 1].EndOfInput?
    ensures Run(events, rootsWait).record.probeFinished
            == Run(events[..|events| - 1], rootsWait).record.probeFinished
  {
  }

  // ---------- What was asked and what was said ----------

  /** The methods that came in, in order. */
  function MethodsOf(events: seq<Event>): seq<string>
  {
    if events == [] then []
    else
      var message := MessageOf(events[|events| - 1]);
      MethodsOf(events[..|events| - 1])
      + if message.Some? && message.value.methodName.Some? then [message.value.methodName.value] else []
  }

  lemma HandleNotes(st: Stub, message: Message, now: real)
    ensures Handle(st, message, now).record.clientRequests
            == if message.methodName.Some? && |st.record.clientRequests| < 100
               then st.record.clientRequests + [message.methodName.value] else st.record.clientRequests
  {
    hide HandleRequest;
    if message.methodName.Some? {
      var requests := Note(st.record.clientRequests, message.methodName.value);
      RequestKeepsRoots(st.(record := st.record.(clientRequests := requests)), message.methodName.value, message, now);
    }
  }

  lemma RestKeepsNotes(st: Stub, rootsWait: real, now: real, error: string)
    ensures Tick(st, rootsWait, now).record.clientRequests == st.record.clientRequests
    ensures Stop(st, error).record.clientRequests == st.record.clientRequests
    ensures End(st).record.clientRequests == st.record.clientRequests
  {
  }

  lemma StepNotes(st: Stub, event: Event, rootsWait: real)
    ensures var message, was := MessageOf(event), st.record.clientRequests;
            Step(st, event, rootsWait).record.clientRequests
            == if message.Some? && message.value.methodName.Some? && |was| < 100
               then was + [message.value.methodName.value] else was
  {
    hide Handle, Tick, Stop, End;
    StepIsMessageThenRest(st, event, rootsWait);
    if MessageOf(event).Some? {
      HandleNotes(st, MessageOf(event).value, HandledAt(event));
    }
    RestKeepsNotes(AfterMessage(st, event), rootsWait, if event.Round? then event.tickedAt else 0.0,
                   if event.ReplyBroke? || event.TickBroke? then event.error else "");
  }

  /** The record lists the first hundred methods that came in. */
  lemma {:induction false} RequestsAreListed(events: seq<Event>, rootsWait: real)
    ensures var methods := MethodsOf(events);
            Run(events, rootsWait).record.clientRequests == if |methods| <= 100 then methods else methods[..100]
  {
    hide Step, Run;
    NothingYet(rootsWait);
    if events != [] {
      var last := |events| - 1;
      RequestsAreListed(events[..last], rootsWait);
      RunStep(events, rootsWait);
      StepNotes(Run(events[..last], rootsWait), events[last], rootsWait);
    }
  }

  /** What a message is answered with. */
  function RepliesTo(message: Message): seq<Sent>
  {
    match message.methodName
    case None => []
    case Some(name) =>
      if name == "initialize" then
        var asked := message.params.protocolVersion;
        [Reply(message.ident, InitializeResult(if asked.Some? then asked.value else "2024-11-05"))]
      else if name == "tools/list" then [Reply(message.ident, ToolsList)]
      else if name == "resources/list" then [Reply(message.ident, EmptyList("resources"))]
      else if name == "resources/templates/list" then [Reply(message.ident, EmptyList("resourceTemplates"))]
      else if name == "prompts/list" then [Reply(message.ident, EmptyList("prompts"))]
      else if name == "ping" then [Reply(message.ident, EmptyObject)]
      else if name == "notifications/initialized" || message.ident == NoId then []
      else [ErrorReply(message.ident, -32601)]
  }

  /** Everything written in a run: the replies to its messages and, after those of its round, the probe. */
  ghost function Said(events: seq<Event>, rootsWait: real): seq<Sent>
  {
    if events == [] then []
    else
      var last := |events| - 1;
      var event := events[last];
      Said(events[..last], rootsWait)
      + (if MessageOf(event).Some? && !event.ReplyBroke? then RepliesTo(MessageOf(event).value) else [])
      + (if WritesProbeAt(events, rootsWait, last) then [RootsProbe] else [])
  }

  lemma HandleReplies(st: Stub, message: Message, now: real)
    ensures Handle(st, message, now).out == st.out + RepliesTo(message)
  {
    if message.methodName.Some? {
      var name := message.methodName.value;
      assert "initialize"[0] != "tools/list"[0] && "notifications/initialized"[0] != "prompts/list"[0];
      assert "ping"[1] != "prompts/list"[1] && |"resources/list"| != |"resources/templates/list"|;
      assert EmptyListKey(name).Some? <==>
               name == "resources/list" || name == "resources/templates/list" || name == "prompts/list";
    }
  }

  lemma TickSays(st: Stub, event: Event, rootsWait: real)
    requires Inv(st)
    ensures Step(st, event, rootsWait).out
            == AfterMessage(st, event).out + if WritesProbe(st, event) then [RootsProbe] else []
  {
    hide Handle, HandleIfAny;
    StepIsMessageThenRest(st, event, rootsWait);
  }

  lemma {:induction false} OutIsSaid(events: seq<Event>, rootsWait: real)
    ensures Run(events, rootsWait).out == Said(events, rootsWait)
  {
    hide Handle, Run, Inv, WritesProbe, RepliesTo, Step;
    NothingYet(rootsWait);
    if events != [] {
      var last := |events| - 1;
      OutIsSaid(events[..last], rootsWait);
      var st, event := Run(events[..last], rootsWait), events[last];
      RunKeeps(events[..last], rootsWait);
      RunStep(events, rootsWait);
      TickSays(st, event, rootsWait);
      if MessageOf(event).Some? {
        HandleReplies(st, MessageOf(event).value, HandledAt(event));
      }
    }
  }

  // ---------- The judge ----------

  /** An answer that came in while no probe had been written. */
  ghost predicate EarlyAnswer(events: seq<Event>, rootsWait: real)
  {
    exists k: nat :: k < |events| && BringsAnswer(events[k]) && !ProbeBefore(events, rootsWait, k)
  }

  ghost predicate ProbeEnded(events: seq<Event>, rootsWait: real)
  {
    exists k: nat :: AnswersProbeAt(events, rootsWait, k) || WaitedOutAt(events, rootsWait, k)
  }

  /** The last initialize declared roots, and the last answer to the probe carries an error object. */
  ghost predicate DeclaredButFailed(events: seq<Event>, rootsWait: real)
  {
    && (exists i: nat :: LastWith(events, "initialize", i) && MessageOf(events[i]).value.params.declaresRoots)
    && exists k: nat :: LastAnswer(events, rootsWait, k) && CarriesError(events[k])
  }

  lemma EarlyIsUnrequested(events: seq<Event>, rootsWait: real)
    ensures EarlyAnswer(events, rootsWait) <==> exists k: nat :: UnrequestedAt(events, rootsWait, k)
  {
    hide Run, BringsAnswer, ProbeBefore;
    forall k: nat | k < |events|
      ensures UnrequestedAt(events, rootsWait, k)
              <==> BringsAnswer(events[k]) && !ProbeBefore(events, rootsWait, k)
    {
      SentBefore(events, rootsWait, k);
    }
  }

  lemma DeclaresExactly(events: seq<Event>, rootsWait: real)
    ensures Run(events, rootsWait).record.initialize.declaresRoots <==>
              exists i: nat :: LastWith(events, "initialize", i) && MessageOf(events[i]).value.params.declaresRoots
  {
    hide Run, HasMethod, CameIn;
    SomeLast(events, "initialize");
    if i: nat :| LastWith(events, "initialize", i) {
      forall j: nat | LastWith(events, "initialize", j) ensures j == i {
      }
      DeclaredByTheLast(events, rootsWait, i);
    } else {
      NoInitializeNoTime(events, rootsWait);
    }
  }

  /** What the judge reports, and in which order it looks, from the events of the run alone. */
  lemma JudgeNames(events: seq<Event>, rootsWait: real)
    ensures var record := Run(events, rootsWait).record;
            ServerProblems(record) ==
              if !CameIn(events, "initialize") then [NeverInitialized]
              else if EarlyAnswer(events, rootsWait) then [AnsweredBeforeAsked]
              else if !ProbeEnded(events, rootsWait)
              then [ProbeNotFinished(if record.roots.reason.Some? then record.roots.reason else record.error)]
              else if DeclaredButFailed(events, rootsWait) then [RootsError] else []
  {
    hide Run, CameIn, LastAnswer, CarriesError, AnswersProbeAt, WaitedOutAt;
    MarksAreEvents(events, rootsWait);
    UnrequestedIsEarlyAnswer(events, rootsWait);
    EarlyIsUnrequested(events, rootsWait);
    FinishedExactly(events, rootsWait);
    OutcomeSays(events, rootsWait);
    DeclaresExactly(events, rootsWait);
  }

  /** What a report of an unfinished probe names: the last event of a served run, or that nothing said initialized. */
  lemma UnfinishedNames(events: seq<Event>, rootsWait: real)
    requires IsServed(events) && CameIn(events, "initialize") && !EarlyAnswer(events, rootsWait)
    requires !ProbeEnded(events, rootsWait)
    ensures ServerProblems(Run(events, rootsWait).record) == [ProbeNotFinished(
              if GaveUp(events) then Some("the client never sent notifications/initialized")
              else if events[|events| - 1].EndOfInput? then Some("the client closed the connection first")
              else if events[|events| - 1].Round? then None else Some(events[|events| - 1].error))]
  {
    hide Run, EarlyAnswer, GaveUp, AnswersProbeAt, WaitedOutAt;
    JudgeNames(events, rootsWait);
    ReasonSays(events, rootsWait);
    FinishedExactly(events, rootsWait);
  }

  /**
   No problem is reported exactly when initialize came in, no answer came before the probe, the probe was answered or
   waited out, and it is not so that the last initialize declared roots and the last answer is an error.
  */
  lemma JudgeAcceptsExactly(events: seq<Event>, rootsWait: real)
    ensures ServerProblems(Run(events, rootsWait).record) == [] <==>
              && CameIn(events, "initialize") && !EarlyAnswer(events, rootsWait) && ProbeEnded(events, rootsWait)
              && !DeclaredButFailed(events, rootsWait)
  {
    hide Run, CameIn, EarlyAnswer, ProbeEnded, DeclaredButFailed;
    JudgeNames(events, rootsWait);
  }

  /**
   The story of an accepted record: the client was initialized, then the probe was written, and only after that came an
   answer or error, or a round at least `rootsWait` after the probe. No answer came in any round up to the probe's.
  */
  lemma AcceptedRunStory(events: seq<Event>, rootsWait: real)
    requires ServerProblems(Run(events, rootsWait).record) == []
    ensures CameIn(events, "initialize")
    ensures exists j, k :: 0 <= j < k < |events| && WritesProbeAt(events, rootsWait, j)
                           && CameIn(events[..j + 1], "notifications/initialized")
                           && (forall i :: 0 <= i <= j ==> !BringsAnswer(events[i]))
                           && (BringsAnswer(events[k])
                               || (events[k].Round? && events[k].tickedAt - events[j].tickedAt >= rootsWait))
  {
    hide Run, WritesProbe, BringsAnswer, CameIn, ServerProblems, EarlyAnswer;
    JudgeAcceptsExactly(events, rootsWait);
    EarlyIsUnrequested(events, rootsWait);
    FinishedExactly(events, rootsWait);
    FinishedIsEnded(events, rootsWait);
    var k: nat :| EndsProbeAt(events, rootsWait, k);
    SentIsWritten(events[..k], rootsWait);
    var j: nat :| WritesProbeAt(events[..k], rootsWait, j);
    assert events[..k][..j] == events[..j] && events[..k][j] == events[j];
    assert WritesProbeAt(events, rootsWait, j);
    SentAtWriting(events[..k], rootsWait, j);
    ProbeFollowsInitialized(events, rootsWait, j);
    forall i | 0 <= i <= j ensures !BringsAnswer(events[i]) {
      NoAnswerBeforeProbe(events, rootsWait, i, j);
    }
  }

  lemma NoAnswerBeforeProbe(events: seq<Event>, rootsWait: real, i: nat, j: nat)
    requires i <= j && WritesProbeAt(events, rootsWait, j) && !(exists k: nat :: UnrequestedAt(events, rootsWait, k))
    ensures !BringsAnswer(events[i])
  {
    var upTo := events[..j];
    RunKeeps(upTo, rootsWait);
    StepAnswers(Run(upTo, rootsWait), events[j], rootsWait);
    NothingIsWithdrawn(upTo, i, rootsWait);
    assert upTo[..i] == events[..i];
    assert Run(events[..i], rootsWait).rootsSentAt.None?;
    assert !UnrequestedAt(events, rootsWait, i);
  }
}
