/** The stdio server of the evidence run, with the fields it updates in place. Its steps are those of McpProtocol. */
module McpStub {
  import opened Options
  import P = McpProtocol
  import opened McpTheorems

  type Time = real

  class Server {
    const rootsWait: Time
    var record: P.Record
    var saved: Option<P.Record>  // the numbered file, replaced whole by each save
    var initializeAt: Option<Time>
    var initializedAt: Option<Time>
    var rootsSentAt: Option<Time>
    var sawToolsList: bool
    var out: seq<P.Sent>

    constructor (rootsWait: Time)
      ensures this.rootsWait == rootsWait && State() == P.FIRST_STUB && saved.None?
    {
      this.rootsWait := rootsWait;
      record, saved, out := P.FIRST_RECORD, None, [];
      initializeAt, initializedAt, rootsSentAt, sawToolsList := None, None, None, false;
    }

    function State(): P.Stub
      reads this
    {
      P.Stub(record, initializeAt, initializedAt, rootsSentAt, sawToolsList, out)
    }

    method Save()
      modifies this`saved
      ensures saved == Some(record)
    {
      saved := Some(record);
    }

    /** Answers a request unless the pipe is broken, in which case nothing more of the round happens. */
    method Reply(message: P.Sent, broken: bool) returns (ok: bool)
      modifies this`out
      ensures ok == !broken && out == if broken then old(out) else old(out) + [message]
    {
      ok := !broken;
      if ok {
        out := out + [message];
      }
    }

    method HandleRequest(methodName: string, message: P.Message, now: Time, broken: bool) returns (ok: bool)
      modifies this`record, this`initializeAt, this`initializedAt, this`sawToolsList, this`out
      ensures var next := P.HandleRequest(old(State()), methodName, message, now);
              State() == if ok then next else next.(out := old(out))
      ensures (!broken ==> ok) && (broken ==> out == old(out))
    {
      hide P.EmptyListKey;
      ok := true;
      if methodName == "initialize" {
        record := record.(initialize := P.Initialize(true, message.params.declaresRoots));
        initializeAt := Some(now);
        var version := match message.params.protocolVersion case Some(v) => v case None => "2024-11-05";
        ok := Reply(P.Reply(message.ident, P.InitializeResult(version)), broken);
      } else if methodName == "notifications/initialized" {
        initializedAt := Some(now);
      } else if methodName == "tools/list" {
        sawToolsList := true;
        ok := Reply(P.Reply(message.ident, P.ToolsList), broken);
      } else if methodName == "ping" {
        ok := Reply(P.Reply(message.ident, P.EmptyObject), broken);
      } else if P.EmptyListKey(methodName).Some? {
        ok := Reply(P.Reply(message.ident, P.EmptyList(P.EmptyListKey(methodName).value)), broken);
      } else if message.ident != P.NoId {
        ok := Reply(P.ErrorReply(message.ident, -32601), broken);
      }
    }

    method FinishRoots(now: Time)
      modifies this`record
      ensures State() == P.FinishRoots(old(State()), now)
    {
      if rootsSentAt.Some? {
        record := record.(roots := record.roots.(waitedSeconds := Some(now - rootsSentAt.value)));
      }
      record := record.(probeFinished := true);
      record := record.(complete := true);
    }

    method RootsAnswer(message: P.Message, now: Time)
      modifies this`record
      ensures State() == P.RootsAnswer(old(State()), message, now)
    {
      if rootsSentAt.None? {
        record := record.(roots := record.roots.(unrequestedAnswer := true));
        return;
      }
      if message.error.ErrorObject? {
        record := record.(roots := record.roots.(outcome := P.AnsweredError, errorCode := message.error.code));
      } else {
        record := record.(roots := record.roots.(outcome := P.Answered, rootCount := Some(message.resultRoots)));
      }
      FinishRoots(now);
    }

    method Handle(message: P.Message, now: Time, broken: bool) returns (ok: bool)
      modifies this
      ensures State() == if ok then P.Handle(old(State()), message, now)
                         else P.Handle(old(State()), message, now).(out := old(out))
      ensures (!broken ==> ok) && (broken ==> out == old(out))
      ensures ok ==> saved == Some(record)
    {
      hide P.HandleRequest, P.RootsAnswer;
      ok := true;
      if message.methodName.Some? {
        record := record.(clientRequests := P.Note(record.clientRequests, message.methodName.value));
        ok := HandleRequest(message.methodName.value, message, now, broken);
      } else if P.IsAnswer(message) {
        RootsAnswer(message, now);
      }
      if ok {
        Save();
      }
    }

    method Tick(now: Time)
      modifies this
      ensures State() == P.Tick(old(State()), rootsWait, now)
      ensures State() != old(State()) || old(saved) == Some(old(record)) ==> saved == Some(record)
    {
      if record.complete {
        return;
      }
      if initializedAt.Some? && rootsSentAt.None? {
        if sawToolsList || now - initializedAt.value >= P.TOOLS_LIST_GRACE_SECONDS {
          out := out + [P.RootsProbe];
          rootsSentAt := Some(now);
          record := record.(roots := record.roots.(sent := true, outcome := P.NoReply));
          Save();
        }
      } else if rootsSentAt.Some? && now - rootsSentAt.value >= rootsWait {
        record := record.(roots := record.roots.(outcome := P.NoReply));
        FinishRoots(now);
        Save();
      } else if initializedAt.None? && initializeAt.Some? && now - initializeAt.value >= P.INITIALIZED_WAIT_SECONDS {
        record := record.(roots := record.roots.(reason := Some("the client never sent notifications/initialized")));
        record := record.(complete := true);
        Save();
      }
    }

    method End()
      modifies this
      ensures State() == P.End(old(State())) && saved == Some(record)
    {
      record := record.(stdinClosed := true);
      if !record.complete {
        record := record.(roots := record.roots.(reason := Some("the client closed the connection first")));
        record := record.(complete := true);
      }
      Save();
    }

    method Stop(error: string)
      modifies this
      ensures State() == P.Stop(old(State()), error) && saved == Some(record)
    {
      record := record.(error := Some(error));
      record := record.(complete := true);
      Save();
    }

    /** One event of the serve loop. */
    method Take(event: P.Event)
      modifies this
      ensures State() == P.Step(old(State()), event, rootsWait)
      ensures old(saved) == Some(old(record)) ==> saved == Some(record)
    {
      hide P.Handle, P.Tick, P.End, P.Stop;
      match event {
        case Round(message, handledAt, tickedAt) =>
          if message.Some? {
            var _ := Handle(message.value, handledAt, false);
          }
          Tick(tickedAt);
        case ReplyBroke(line, brokeAt, error) =>
          var _ := Handle(line, brokeAt, true);
          Stop(error);
        case TickBroke(message, handledAt, error) =>
          if message.Some? {
            var _ := Handle(message.value, handledAt, false);
          }
          Stop(error);
        case EndOfInput =>
          End();
      }
    }

    /** Serves rounds until one ends the server or there are no more; `served` says how many were taken. */
    method Serve(events: seq<P.Event>) returns (served: nat)
      requires State() == P.FIRST_STUB
      modifies this
      ensures served <= |events| && State() == P.Run(events[..served], rootsWait)
      ensures served < |events| ==> served > 0 && !events[served - 1].Round?
      ensures forall i :: 0 <= i < served - 1 ==> events[i].Round?
      ensures State().record.probeFinished ==> State().record.complete && Probes(out) == 1
      ensures saved == Some(record)
    {
      hide P.Step, Probes;
      Save();
      served := 0;
      while served < |events|
        invariant served <= |events| && State() == P.Run(events[..served], rootsWait) && saved == Some(record)
        invariant forall i :: 0 <= i < served ==> events[i].Round?
      {
        assert events[..served + 1][..served] == events[..served];
        Take(events[served]);
        served := served + 1;
        if !events[served - 1].Round? {
          break;
        }
      }
      AtMostOneProbe(events[..served], rootsWait);
    }
  }
}
