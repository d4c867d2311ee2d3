/** What holds over every run of the evidence stub, and what an accepted record says about its run. */
module McpTheorems {
  import opened Options
  import opened McpProtocol

  // ---------- One step ----------

  function Probes(out: seq<Sent>): nat
  {
    if out == [] then 0 else Probes(out[..|out| - 1]) + if out[|out| - 1].RootsProbe? then 1 else 0
  }

  lemma ProbesAppend(out: seq<Sent>, message: Sent)
    ensures Probes(out + [message]) == Probes(out) + if message.RootsProbe? then 1 else 0
  {
    assert (out + [message])[..|out|] == out;
  }

  ghost predicate Inv(st: Stub)
  {
    var record, roots := st.record, st.record.roots;
    && Probes(st.out) == (if st.rootsSentAt.Some? then 1 else 0)
    && (roots.sent <==> st.rootsSentAt.Some?)
    && (roots.sent ==> st.initializedAt.Some?)
    && (record.probeFinished ==> roots.sent && record.complete)
    && (roots.waitedSeconds.Some? <==> record.probeFinished)
    && (roots.outcome.NotSent? <==> !roots.sent)
    && (roots.sent && !record.probeFinished ==> roots.outcome.NoReply?)
    && |record.clientRequests| <= LIST_LIMIT
  }

  /** Nothing that was recorded about the probe is ever taken back. */
  ghost predicate Grows(st: Stub, next: Stub)
  {
    && (st.record.complete ==> next.record.complete)
    && (st.record.probeFinished ==> next.record.probeFinished)
    && (st.record.initialize.received ==> next.record.initialize.received)
    && (st.record.roots.unrequestedAnswer ==> next.record.roots.unrequestedAnswer)
    && (st.initializedAt.Some? ==> next.initializedAt.Some?)
    && (st.rootsSentAt.Some? ==> next.rootsSentAt == st.rootsSentAt)
    && (st.sawToolsList ==> next.sawToolsList)
    && (st.record.complete ==> next.rootsSentAt == st.rootsSentAt)
  }

  /** A request changes nothing about the probe, and what it sends is never a probe. */
  ghost predicate SameProbe(st: Stub, next: Stub)
  {
    && next.record.roots == st.record.roots && next.rootsSentAt == st.rootsSentAt
    && next.record.complete == st.record.complete && next.record.probeFinished == st.record.probeFinished
    && Probes(next.out) == Probes(st.out) && next.record.clientRequests == st.record.clientRequests
  }

  ghost predicate RequestMarks(st: Stub, next: Stub, methodName: string)
  {
    && (next.record.initialize.received <==> st.record.initialize.received || methodName == "initialize")
    && (next.initializedAt.Some? <==> st.initializedAt.Some? || methodName == "notifications/initialized")
    && (next.sawToolsList <==> st.sawToolsList || methodName == "tools/list")
  }

  lemma RequestKeepsProbe(st: Stub, methodName: string, message: Message, now: real)
    ensures SameProbe(st, HandleRequest(st, methodName, message, now))
  {
    hide Probes, EmptyListKey;
    forall reply: Sent ensures !reply.RootsProbe? ==> Probes(st.out + [reply]) == Probes(st.out) {
      ProbesAppend(st.out, reply);
    }
  }

  lemma RequestIsMarked(st: Stub, methodName: string, message: Message, now: real)
    ensures RequestMarks(st, HandleRequest(st, methodName, message, now), methodName)
  {
    hide EmptyListKey;
    assert "initialize"[0] != "notifications/initialized"[0] && "initialize"[0] != "tools/list"[0];
    assert "notifications/initialized"[0] != "tools/list"[0];
  }

  /** Everything that matters about handling one message. */
  ghost predicate Handled(st: Stub, next: Stub, message: Message)
  {
    var ends := IsAnswer(message) && st.rootsSentAt.Some?;
    && next.rootsSentAt == st.rootsSentAt
    && (next.record.initialize.received <==> st.record.initialize.received || message.methodName == Some("initialize"))
    && (next.initializedAt.Some? <==> st.initializedAt.Some? || message.methodName == Some("notifications/initialized"))
    && (next.sawToolsList <==> st.sawToolsList || message.methodName == Some("tools/list"))
    && (next.record.roots.unrequestedAnswer <==>
          st.record.roots.unrequestedAnswer || (IsAnswer(message) && st.rootsSentAt.None?))
    && (next.record.probeFinished <==> st.record.probeFinished || ends)
    && (next.record.complete <==> st.record.complete || ends)
  }

  lemma HandleIsHandled(st: Stub, message: Message, now: real)
    ensures Handled(st, Handle(st, message, now), message)
  {
    hide HandleRequest;
    if message.methodName.Some? {
      var requests := Note(st.record.clientRequests, message.methodName.value);
      var noted := st.(record := st.record.(clientRequests := requests));
      RequestKeepsProbe(noted, message.methodName.value, message, now);
      RequestIsMarked(noted, message.methodName.value, message, now);
    }
  }

  lemma HandleKeepsInv(st: Stub, message: Message, now: real)
    requires Inv(st)
    ensures Inv(Handle(st, message, now)) && Inv(Handle(st, message, now).(out := st.out))
  {
    hide HandleRequest, Probes;
    if message.methodName.Some? {
      var requests := Note(st.record.clientRequests, message.methodName.value);
      var noted := st.(record := st.record.(clientRequests := requests));
      RequestKeepsProbe(noted, message.methodName.value, message, now);
      RequestIsMarked(noted, message.methodName.value, message, now);
    }
  }

  lemma HandleKeeps(st: Stub, message: Message, now: real)
    requires Inv(st)
    ensures Inv(Handle(st, message, now)) && Grows(st, Handle(st, message, now))
    ensures Inv(Handle(st, message, now).(out := st.out))
  {
    hide Handle, Inv;
    HandleIsHandled(st, message, now);
    HandleKeepsInv(st, message, now);
  }

  lemma GrowsChain(st: Stub, mid: Stub, next: Stub)
    ensures Grows(st, st)
    ensures Grows(st, mid) && Grows(mid, next) ==> Grows(st, next)
  {
  }

  lemma ProbeKeeps(st: Stub, now: real)
    requires Inv(st) && !st.record.complete && st.initializedAt.Some? && st.rootsSentAt.None?
    ensures var roots := st.record.roots.(sent := true, outcome := NoReply);
            var next := Send(st.(rootsSentAt := Some(now), record := st.record.(roots := roots)), RootsProbe);
            Inv(next) && Grows(st, next)
  {
    hide Probes;
    ProbesAppend(st.out, RootsProbe);
  }

  lemma WaitKeeps(st: Stub, now: real)
    requires Inv(st) && st.rootsSentAt.Some?
    ensures var next := FinishRoots(st.(record := st.record.(roots := st.record.roots.(outcome := NoReply))), now);
            Inv(next) && Grows(st, next)
  {
    hide Probes;
  }

  /** A record that is made final for want of an answer. */
  lemma FinalKeeps(st: Stub, reason: Option<string>)
    requires Inv(st)
    ensures var roots := st.record.roots.(reason := reason);
            var next := st.(record := st.record.(roots := roots, complete := true));
            Inv(next) && Grows(st, next)
  {
    hide Probes;
  }

  lemma TickKeeps(st: Stub, rootsWait: real, now: real)
    requires Inv(st)
    ensures Inv(Tick(st, rootsWait, now)) && Grows(st, Tick(st, rootsWait, now))
  {
    hide Inv, Grows, Send, FinishRoots;
    GrowsChain(st, st, st);
    if st.record.complete {
    } else if st.initializedAt.Some? && st.rootsSentAt.None? {
      ProbeKeeps(st, now);
    } else if st.rootsSentAt.Some? {
      WaitKeeps(st, now);
      FinalKeeps(st, Some("the client never sent notifications/initialized"));
    } else {
      FinalKeeps(st, Some("the client never sent notifications/initialized"));
    }
  }

  lemma EndKeeps(st: Stub)
    requires Inv(st)
    ensures Inv(End(st)) && Grows(st, End(st))
  {
    hide Probes;
  }

  lemma StopKeeps(st: Stub, error: string)
    requires Inv(st)
    ensures Inv(Stop(st, error)) && Grows(st, Stop(st, error))
  {
    hide Probes;
  }

  lemma GrowsWhateverIsSent(st: Stub, next: Stub, out: seq<Sent>)
    requires Grows(st, next)
    ensures Grows(st, next.(out := out))
  {
  }

  lemma HandleIfAnyKeeps(st: Stub, message: Option<Message>, now: real)
    requires Inv(st)
    ensures Inv(HandleIfAny(st, message, now)) && Grows(st, HandleIfAny(st, message, now))
  {
    hide Inv, Grows, Handle;
    GrowsChain(st, st, st);
    if message.Some? {
      HandleKeeps(st, message.value, now);
    }
  }

  lemma StepKeeps(st: Stub, event: Event, rootsWait: real)
    requires Inv(st)
    ensures Inv(Step(st, event, rootsWait)) && Grows(st, Step(st, event, rootsWait))
  {
    hide Handle, HandleIfAny, Tick, End, Stop, Inv, Grows;
    var next := Step(st, event, rootsWait);
    match event
    case Round(message, handledAt, tickedAt) =>
      var handled := HandleIfAny(st, message, handledAt);
      HandleIfAnyKeeps(st, message, handledAt);
      TickKeeps(handled, rootsWait, tickedAt);
      GrowsChain(st, handled, next);
    case ReplyBroke(line, brokeAt, error) =>
      var handled := Handle(st, line, brokeAt).(out := st.out);
      HandleKeeps(st, line, brokeAt);
      GrowsWhateverIsSent(st, Handle(st, line, brokeAt), st.out);
      StopKeeps(handled, error);
      GrowsChain(st, handled, next);
    case TickBroke(message, handledAt, error) =>
      var handled := HandleIfAny(st, message, handledAt);
      HandleIfAnyKeeps(st, message, handledAt);
      StopKeeps(handled, error);
      GrowsChain(st, handled, next);
    case EndOfInput =>
      EndKeeps(st);
  }

  // ---------- Every run ----------

  lemma {:induction false} RunKeeps(events: seq<Event>, rootsWait: real)
    ensures Inv(Run(events, rootsWait))
  {
    if events != [] {
      RunKeeps(events[..|events| - 1], rootsWait);
      StepKeeps(Run(events[..|events| - 1], rootsWait), events[|events| - 1], rootsWait);
    }
  }

  /** `complete`, the end of the probe and the time it was sent are never withdrawn, whatever comes later. */
  lemma {:induction false} NothingIsWithdrawn(events: seq<Event>, k: nat, rootsWait: real)
    requires k <= |events|
    ensures Grows(Run(events[..k], rootsWait), Run(events, rootsWait))
  {
    if k == |events| {
      assert events[..k] == events;
    } else {
      var before := events[..|events| - 1];
      NothingIsWithdrawn(before, k, rootsWait);
      assert before[..k] == events[..k];
      RunKeeps(before, rootsWait);
      StepKeeps(Run(before, rootsWait), events[|events| - 1], rootsWait);
    }
  }

  /** At most one probe is written, and only by a stub that was told the client is initialized. */
  lemma AtMostOneProbe(events: seq<Event>, rootsWait: real)
    ensures var st := Run(events, rootsWait);
            Probes(st.out) <= 1 && (Probes(st.out) == 1 <==> st.rootsSentAt.Some?)
            && (st.record.probeFinished ==> Probes(st.out) == 1 && st.record.complete)
  {
    RunKeeps(events, rootsWait);
  }

  // ---------- What the record says about the events ----------

  ghost predicate CameIn(events: seq<Event>, methodName: string)
  {
    exists k :: 0 <= k < |events| && HasMethod(events[k], methodName)
  }

  /** An answer handled while no probe had been sent. */
  ghost predicate UnrequestedAt(events: seq<Event>, rootsWait: real, k: nat)
  {
    k < |events| && BringsAnswer(events[k]) && Run(events[..k], rootsWait).rootsSentAt.None?
  }

  ghost predicate WritesProbe(st: Stub, event: Event)
  {
    event.Round? && ProbeDue(HandleIfAny(st, event.message, event.handledAt), event.tickedAt)
  }

  ghost predicate WritesProbeAt(events: seq<Event>, rootsWait: real, k: nat)
  {
    k < |events| && WritesProbe(Run(events[..k], rootsWait), events[k])
  }

  /** After the probe: an answer or error to it, or the whole wait with no reply. */
  ghost predicate EndsProbe(st: Stub, event: Event, rootsWait: real)
  {
    && st.rootsSentAt.Some?
    && (BringsAnswer(event) || (event.Round? && !st.record.complete
                                && event.tickedAt - st.rootsSentAt.value >= rootsWait))
  }

  ghost predicate EndsProbeAt(events: seq<Event>, rootsWait: real, k: nat)
  {
    k < |events| && EndsProbe(Run(events[..k], rootsWait), events[k], rootsWait)
  }

  predicate SameMarks(st: Stub, next: Stub)
  {
    && next.record.initialize == st.record.initialize && next.initializedAt == st.initializedAt
    && next.sawToolsList == st.sawToolsList
  }

  lemma EndingsKeepMarks(st: Stub, rootsWait: real, now: real, error: string)
    ensures SameMarks(st, Tick(st, rootsWait, now)) && SameMarks(st, End(st)) && SameMarks(st, Stop(st, error))
  {
  }

  lemma StepRecords(st: Stub, event: Event, rootsWait: real)
    ensures var next := Step(st, event, rootsWait);
            && (next.record.initialize.received <==> st.record.initialize.received || HasMethod(event, "initialize"))
            && (next.initializedAt.Some? <==> st.initializedAt.Some? || HasMethod(event, "notifications/initialized"))
            && (next.sawToolsList <==> st.sawToolsList || HasMethod(event, "tools/list"))
  {
    hide Handle, Tick, End, Stop, IsAnswer;
    match event {
      case Round(message, handledAt, tickedAt) =>
        EndingsKeepMarks(HandleIfAny(st, message, handledAt), rootsWait, tickedAt, "");
      case ReplyBroke(line, brokeAt, error) =>
        EndingsKeepMarks(Handle(st, line, brokeAt).(out := st.out), rootsWait, brokeAt, error);
      case TickBroke(message, handledAt, error) =>
        EndingsKeepMarks(HandleIfAny(st, message, handledAt), rootsWait, handledAt, error);
      case EndOfInput =>
        EndingsKeepMarks(st, rootsWait, 0.0, "");
    }
    if MessageOf(event).Some? {
      HandleIsHandled(st, MessageOf(event).value, if event.ReplyBroke? then event.brokeAt else event.handledAt);
    }
  }

  lemma StepAnswers(st: Stub, event: Event, rootsWait: real)
    requires Inv(st)
    ensures var next := Step(st, event, rootsWait);
            && (next.record.roots.unrequestedAnswer <==>
                  st.record.roots.unrequestedAnswer || (BringsAnswer(event) && st.rootsSentAt.None?))
            && (next.rootsSentAt.Some? <==> st.rootsSentAt.Some? || WritesProbe(st, event))
            && (next.record.probeFinished <==> st.record.probeFinished || EndsProbe(st, event, rootsWait))
            && (WritesProbe(st, event) ==> st.rootsSentAt.None? && next.rootsSentAt == Some(event.tickedAt))
  {
    hide Handle;
    if MessageOf(event).Some? {
      HandleIsHandled(st, MessageOf(event).value, if event.ReplyBroke? then event.brokeAt else event.handledAt);
    }
  }

  /** What the last event of a run does to the marks of the probe. */
  lemma LastAnswers(events: seq<Event>, rootsWait: real)
    requires events != []
    ensures var st, next, event := Run(events[..|events| - 1], rootsWait), Run(events, rootsWait), events[|events| - 1];
            && (next.record.roots.unrequestedAnswer <==>
                  st.record.roots.unrequestedAnswer || (BringsAnswer(event) && st.rootsSentAt.None?))
            && (next.rootsSentAt.Some? <==> st.rootsSentAt.Some? || WritesProbe(st, event))
            && (next.record.probeFinished <==> st.record.probeFinished || EndsProbe(st, event, rootsWait))
  {
    hide Step, Inv, BringsAnswer, WritesProbe, EndsProbe;
    RunKeeps(events[..|events| - 1], rootsWait);
    StepAnswers(Run(events[..|events| - 1], rootsWait), events[|events| - 1], rootsWait);
  }

  lemma NothingYet(rootsWait: real)
    ensures Run([], rootsWait) == FIRST_STUB
  {
  }

  lemma Prefixes(events: seq<Event>, k: nat)
    requires events != [] && k < |events|
    ensures events[..|events| - 1][..k] == events[..k]
  {
  }

  /** The record has an initialize exactly when one came in, and the same for the other two marks. */
  lemma {:induction false} MarksAreEvents(events: seq<Event>, rootsWait: real)
    ensures var st := Run(events, rootsWait);
            && (st.record.initialize.received <==> CameIn(events, "initialize"))
            && (st.initializedAt.Some? <==> CameIn(events, "notifications/initialized"))
            && (st.sawToolsList <==> CameIn(events, "tools/list"))
  {
    if events != [] {
      var before, last := events[..|events| - 1], events[|events| - 1];
      MarksAreEvents(before, rootsWait);
      StepRecords(Run(before, rootsWait), last, rootsWait);
      CameInStep(events, "initialize");
      CameInStep(events, "notifications/initialized");
      CameInStep(events, "tools/list");
    }
  }

  lemma CameInStep(events: seq<Event>, methodName: string)
    requires events != []
    ensures CameIn(events, methodName) <==>
              CameIn(events[..|events| - 1], methodName) || HasMethod(events[|events| - 1], methodName)
  {
    hide HasMethod;
    var before := events[..|events| - 1];
    forall k | 0 <= k < |before| ensures before[k] == events[k] {
    }
    if CameIn(before, methodName) {
      var k :| 0 <= k < |before| && HasMethod(before[k], methodName);
      assert HasMethod(events[k], methodName);
    }
  }

  /** An unrequested answer is recorded exactly when some answer came in before the probe had been sent. */
  lemma {:induction false} UnrequestedIsEarlyAnswer(events: seq<Event>, rootsWait: real)
    ensures Run(events, rootsWait).record.roots.unrequestedAnswer
            <==> exists k: nat :: UnrequestedAt(events, rootsWait, k)
  {
    hide Run, BringsAnswer;
    NothingYet(rootsWait);
    if events != [] {
      var n := |events| - 1;
      var before := events[..n];
      UnrequestedIsEarlyAnswer(before, rootsWait);
      LastAnswers(events, rootsWait);
      forall k: nat | k < n ensures UnrequestedAt(before, rootsWait, k) <==> UnrequestedAt(events, rootsWait, k) {
        Prefixes(events, k);
      }
      assert UnrequestedAt(events, rootsWait, n)
             <==> BringsAnswer(events[n]) && Run(before, rootsWait).rootsSentAt.None?;
    }
  }

  /** The probe has been sent exactly when some round wrote it. */
  lemma {:induction false} SentIsWritten(events: seq<Event>, rootsWait: real)
    ensures Run(events, rootsWait).rootsSentAt.Some? <==> exists k: nat :: WritesProbeAt(events, rootsWait, k)
  {
    hide Run, WritesProbe;
    NothingYet(rootsWait);
    if events != [] {
      var n := |events| - 1;
      var before := events[..n];
      SentIsWritten(before, rootsWait);
      LastAnswers(events, rootsWait);
      forall k: nat | k < n ensures WritesProbeAt(before, rootsWait, k) <==> WritesProbeAt(events, rootsWait, k) {
        Prefixes(events, k);
      }
      assert WritesProbeAt(events, rootsWait, n) <==> WritesProbe(Run(before, rootsWait), events[n]);
    }
  }

  /** The time the probe is waited from is the time of the round that wrote it. */
  lemma SentAtWriting(events: seq<Event>, rootsWait: real, k: nat)
    requires WritesProbeAt(events, rootsWait, k)
    ensures Run(events, rootsWait).rootsSentAt == Some(events[k].tickedAt)
  {
    hide WritesProbe, Step, Inv;
    var upTo := events[..k + 1];
    assert upTo[..|upTo| - 1] == events[..k] && upTo[k] == events[k];
    RunKeeps(events[..k], rootsWait);
    StepAnswers(Run(events[..k], rootsWait), events[k], rootsWait);
    NothingIsWithdrawn(events, k + 1, rootsWait);
  }

  /** The probe has finished exactly when some event after it was its answer or error, or let the whole wait pass. */
  lemma {:induction false} FinishedIsEnded(events: seq<Event>, rootsWait: real)
    ensures Run(events, rootsWait).record.probeFinished <==> exists k: nat :: EndsProbeAt(events, rootsWait, k)
  {
    hide Run, EndsProbe;
    NothingYet(rootsWait);
    if events != [] {
      var n := |events| - 1;
      var before := events[..n];
      FinishedIsEnded(before, rootsWait);
      LastAnswers(events, rootsWait);
      forall k: nat | k < n ensures EndsProbeAt(before, rootsWait, k) <==> EndsProbeAt(events, rootsWait, k) {
        Prefixes(events, k);
      }
      assert EndsProbeAt(events, rootsWait, n) <==> EndsProbe(Run(before, rootsWait), events[n], rootsWait);
    }
  }

  /** The probe goes out only after `notifications/initialized`, and after `tools/list` or the whole grace time. */
  lemma ProbeFollowsInitialized(events: seq<Event>, rootsWait: real, k: nat)
    requires WritesProbeAt(events, rootsWait, k)
    ensures CameIn(events[..k + 1], "notifications/initialized")
    ensures CameIn(events[..k + 1], "tools/list")
            || exists since ::
                 HandleIfAny(Run(events[..k], rootsWait), events[k].message, events[k].handledAt).initializedAt
                 == Some(since)
                               && events[k].tickedAt - since >= TOOLS_LIST_GRACE_SECONDS
  {
    var upTo := events[..k + 1];
    assert upTo[..|upTo| - 1] == events[..k];
    MarksAreEvents(upTo, rootsWait);
    var st := HandleIfAny(Run(events[..k], rootsWait), events[k].message, events[k].handledAt);
    assert Run(upTo, rootsWait) == Tick(st, rootsWait, events[k].tickedAt);
    hide Handle, HandleIfAny, Run;
    assert ProbeDue(st, events[k].tickedAt);
  }
}
