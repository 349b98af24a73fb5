/** The bookkeeping of `TranscribeConversationsAsync`: participant admission,
    the transcriber's event handlers, and the set-once completion signal that
    ends the wait for the session. The engine's callbacks arrive here as a
    sequential trace of events. */
module Transcription {
  import opened Wrappers
  import opened Decimal

  /** `ResultReason` of a final recognition result, as far as the handler distinguishes it. */
  datatype ResultReason = RecognizedSpeech | NoMatch | OtherReason

  /** `CancellationReason` of a `Canceled` event. */
  datatype CancellationReason = Error | EndOfStream | CancelledByUser

  /** The transcriber events the session subscribes to, with the fields the handlers read. */
  datatype TranscriberEvent =
    | Transcribing(text: string, userId: string)
    | Transcribed(reason: ResultReason, text: string, userId: string)
    | Canceled(cancellation: CancellationReason, errorCode: string, errorDetails: string)
    | SessionStarted(sessionId: string)
    | SessionStopped(sessionId: string)

  /** The kinds of line the handlers write to the window, with the values they show. */
  datatype LogLine =
    | TranscribingLine(text: string, userId: string)
    | TranscribedLine(text: string, userId: string)
    | NoMatchLine
    | CanceledReasonLine(reason: CancellationReason)
    | CanceledErrorCodeLine(errorCode: string)
    | CanceledErrorDetailsLine(errorDetails: string)
    | SubscriptionHintLine
    | SessionStartedLine(sessionId: string)
    | SessionStoppedLine(sessionId: string)
    | StopRecognitionLine

  /** What one handler invocation does: the lines it writes, in order, and
      whether it calls `stopRecognition.TrySetResult(0)`. */
  datatype Reaction = Reaction(lines: seq<LogLine>, requestsStop: bool)

  /** The events after which the session is over: the session stopped, or the
      engine cancelled with an error. */
  predicate EndsSession(e: TranscriberEvent): (ends: bool)
    ensures ends ==> e.SessionStopped? || e.Canceled?
    ensures e.SessionStopped? ==> ends
    ensures e.Canceled? ==> (ends <==> e.cancellation == Error)
  {
    e.SessionStopped? || (e.Canceled? && e.cancellation == Error)
  }

  /** The last line of each handler that ends the session: "Stop recognition."
      after `SessionStopped`, and the subscription hint after a cancellation
      with an error. The hint itself only asks whether the subscription was
      updated; the model takes either line as the log's mark that the session
      has ended. */
  predicate AnnouncesEnd(line: LogLine)
  {
    line.SubscriptionHintLine? || line.StopRecognitionLine?
  }

  predicate Announced(log: seq<LogLine>)
  {
    exists k :: 0 <= k < |log| && AnnouncesEnd(log[k])
  }

  /** The handler registered for the event's kind. */
  function Handle(e: TranscriberEvent): (r: Reaction)
    ensures r.requestsStop <==> EndsSession(e)
    ensures r.requestsStop <==> Announced(r.lines)
    ensures r.lines == [] <==> e.Transcribed? && e.reason == OtherReason
    ensures e.Canceled? ==> |r.lines| >= 1 && r.lines[0] == CanceledReasonLine(e.cancellation)
    ensures e.Canceled? ==> (|r.lines| == 1 <==> e.cancellation != Error)
    ensures e.Canceled? && e.cancellation == Error ==> |r.lines| == 4
    ensures e.Transcribed? && e.reason == RecognizedSpeech ==> r.lines == [TranscribedLine(e.text, e.userId)]
  {
    match e
    case Transcribing(text, userId) => Reaction([TranscribingLine(text, userId)], false)
    case Transcribed(reason, text, userId) =>
      (match reason
       case RecognizedSpeech => Reaction([TranscribedLine(text, userId)], false)
       case NoMatch => Reaction([NoMatchLine], false)
       case OtherReason => Reaction([], false))
    case Canceled(reason, errorCode, errorDetails) =>
      if reason == Error then
        var lines := [CanceledReasonLine(reason), CanceledErrorCodeLine(errorCode),
                      CanceledErrorDetailsLine(errorDetails), SubscriptionHintLine];
        assert AnnouncesEnd(lines[3]);
        Reaction(lines, true)
      else Reaction([CanceledReasonLine(reason)], false)
    case SessionStarted(sessionId) => Reaction([SessionStartedLine(sessionId)], false)
    case SessionStopped(sessionId) =>
      var lines := [SessionStoppedLine(sessionId), StopRecognitionLine];
      assert AnnouncesEnd(lines[1]);
      Reaction(lines, true)
  }

  lemma AnnouncedAppend(a: seq<LogLine>, b: seq<LogLine>)
    ensures Announced(a + b) <==> Announced(a) || Announced(b)
  {
    if Announced(a + b) {
      var k :| 0 <= k < |a + b| && AnnouncesEnd((a + b)[k]);
      if k >= |a| {
        assert AnnouncesEnd(b[k - |a|]);
      }
    }
    if Announced(a) {
      var k :| 0 <= k < |a| && AnnouncesEnd(a[k]);
      assert (a + b)[k] == a[k];
    }
    if Announced(b) {
      var k :| 0 <= k < |b| && AnnouncesEnd(b[k]);
      assert (a + b)[|a| + k] == b[k];
    }
  }

  /** Everything the handlers write for a trace of events, in order. */
  function Replay(trace: seq<TranscriberEvent>): seq<LogLine>
  {
    if trace == [] then [] else Replay(trace[..|trace| - 1]) + Handle(trace[|trace| - 1]).lines
  }

  /** Replaying a trace in two parts writes the two logs one after the other. */
  lemma {:induction false} ReplayAppend(a: seq<TranscriberEvent>, b: seq<TranscriberEvent>)
    ensures Replay(a + b) == Replay(a) + Replay(b)
    decreases |b|
  {
    if b == [] {
      assert a + b == a;
    } else {
      var b', last := b[..|b| - 1], b[|b| - 1];
      assert (a + b)[..|a + b| - 1] == a + b';
      assert (a + b)[|a + b| - 1] == last;
      ReplayAppend(a, b');
      calc {
        Replay(a + b);
        Replay(a + b') + Handle(last).lines;
        Replay(a) + Replay(b') + Handle(last).lines;
        Replay(a) + (Replay(b') + Handle(last).lines);
      }
    }
  }

  /** The position of the first event that ends the session, if any. */
  function FirstEnd(trace: seq<TranscriberEvent>): Option<nat>
  {
    if trace == [] then None
    else
      var earlier := FirstEnd(trace[..|trace| - 1]);
      if earlier.Some? then earlier
      else if EndsSession(trace[|trace| - 1]) then Some(|trace| - 1)
      else None
  }

  /** FirstEnd finds the earliest ending event, and finds none only when
      there is none. */
  lemma {:induction false} FirstEndIsFirst(trace: seq<TranscriberEvent>)
    ensures FirstEnd(trace).Some? ==>
              FirstEnd(trace).value < |trace| && EndsSession(trace[FirstEnd(trace).value]) &&
              forall j :: 0 <= j < FirstEnd(trace).value ==> !EndsSession(trace[j])
    ensures FirstEnd(trace).None? <==> forall j :: 0 <= j < |trace| ==> !EndsSession(trace[j])
  {
    if trace != [] {
      var prefix := trace[..|trace| - 1];
      FirstEndIsFirst(prefix);
      if FirstEnd(prefix).None? && !EndsSession(trace[|trace| - 1]) {
        forall j | 0 <= j < |trace|
          ensures !EndsSession(trace[j])
        {
          if j < |prefix| {
            assert trace[j] == prefix[j];
          }
        }
      }
    }
  }

  /** The log announces the end of the session exactly when the trace holds
      an event that ends it. */
  lemma {:induction false} ReplayAnnounces(trace: seq<TranscriberEvent>)
    ensures Announced(Replay(trace)) <==> FirstEnd(trace).Some?
  {
    if trace != [] {
      var prefix := trace[..|trace| - 1];
      ReplayAnnounces(prefix);
      AnnouncedAppend(Replay(prefix), Handle(trace[|trace| - 1]).lines);
    }
  }

  /** Extending a handled prefix of a trace by its next event. */
  lemma DeliverOne(trace: seq<TranscriberEvent>, i: nat)
    requires i < |trace|
    ensures Replay(trace[..i + 1]) == Replay(trace[..i]) + Handle(trace[i]).lines
    ensures FirstEnd(trace[..i + 1]) ==
              if FirstEnd(trace[..i]).Some? then FirstEnd(trace[..i])
              else if EndsSession(trace[i]) then Some(i) else None
  {
    assert trace[..i + 1][..i] == trace[..i];
  }

  /** `TaskCompletionSource<int>`: its result can be set once; later attempts
      are refused and change nothing. */
  class CompletionSource {
    var resolved: bool
    var result: int

    constructor ()
      ensures !resolved && result == 0
    {
      resolved, result := false, 0;
    }

    method TrySetResult(value: int) returns (accepted: bool)
      modifies this
      ensures accepted <==> !old(resolved)
      ensures resolved
      ensures result == (if old(resolved) then old(result) else value)
    {
      if resolved {
        return false;
      }
      resolved, result := true, value;
      return true;
    }
  }

  /** The window log and the `stopRecognition` signal shared by the handlers
      of one call of `TranscribeConversationsAsync`. */
  class TranscriptionSession {
    var log: seq<LogLine>
    const stopRecognition: CompletionSource

    /** The signal only ever receives 0, and it is set exactly when the log
        has told the user that the session is over. */
    ghost predicate Valid()
      reads this, stopRecognition
    {
      (stopRecognition.resolved ==> stopRecognition.result == 0) &&
      (stopRecognition.resolved <==> Announced(log))
    }

    constructor ()
      ensures Valid() && log == [] && !stopRecognition.resolved && fresh(stopRecognition)
    {
      log := [];
      stopRecognition := new CompletionSource();
    }

    /** One handler invocation. `resolvedNow` is whether its `TrySetResult`
        was the one that set the signal. */
    method OnEvent(e: TranscriberEvent) returns (resolvedNow: bool)
      requires Valid()
      modifies this, stopRecognition
      ensures Valid()
      ensures log == old(log) + Handle(e).lines
      ensures stopRecognition.resolved <==> old(stopRecognition.resolved) || EndsSession(e)
      ensures resolvedNow <==> !old(stopRecognition.resolved) && EndsSession(e)
    {
      var reaction := Handle(e);
      AnnouncedAppend(log, reaction.lines);
      log := log + reaction.lines;
      resolvedNow := false;
      if reaction.requestsStop {
        resolvedNow := stopRecognition.TrySetResult(0);
      }
    }

    /** The engine delivering a trace of events one after another. Only the
        first ending event sets the signal; `resolvers` lists the positions of
        the events whose `TrySetResult` took effect. */
    method Deliver(trace: seq<TranscriberEvent>) returns (resolvers: seq<nat>)
      requires Valid()
      modifies this, stopRecognition
      ensures Valid()
      ensures log == old(log) + Replay(trace)
      ensures stopRecognition.resolved <==> old(stopRecognition.resolved) || FirstEnd(trace).Some?
      ensures resolvers == (if old(stopRecognition.resolved) || FirstEnd(trace).None? then []
                            else [FirstEnd(trace).value])
    {
      resolvers := [];
      ghost var log0, wasSet := log, stopRecognition.resolved;
      for i := 0 to |trace|
        invariant Valid()
        invariant log == log0 + Replay(trace[..i])
        invariant stopRecognition.resolved <==> wasSet || FirstEnd(trace[..i]).Some?
        invariant resolvers == (if wasSet || FirstEnd(trace[..i]).None? then [] else [FirstEnd(trace[..i]).value])
      {
        DeliverOne(trace, i);
        var resolvedNow := OnEvent(trace[i]);
        assert log == log0 + Replay(trace[..i + 1]);
        if resolvedNow {
          resolvers := resolvers + [i];
        }
      }
      assert trace[..|trace|] == trace;
    }
  }

  /** A conversation participant as `Participant.From(userId, preferredLanguage, voiceSignature)` creates it. */
  datatype Participant = Participant(userId: string, preferredLanguage: string, voiceSignature: string)

  /** `$"User{n}"`. */
  function ParticipantId(n: nat): (id: string)
    ensures |id| > 4 && id[..4] == "User" && ParseNat(id[4..]) == n
  {
    ParseNatToString(n);
    var id := "User" + NatToString(n);
    assert id[4..] == NatToString(n);
    id
  }

  /** Different counter values give different ids. */
  lemma ParticipantIdInjective(a: nat, b: nat)
    ensures ParticipantId(a) == ParticipantId(b) ==> a == b
  {
    if ParticipantId(a) == ParticipantId(b) {
      assert NatToString(a) == ParticipantId(a)[4..];
      assert NatToString(b) == ParticipantId(b)[4..];
      NatToStringInjective(a, b);
    }
  }

  /** The admission loop: one participant per voice signature, in the order
      given, with ids User1, User2, ... from a counter starting at 1, all with
      locale en-US. */
  method AdmitParticipants(signatures: seq<string>) returns (speakers: seq<Participant>)
    ensures |speakers| == |signatures|
    ensures forall p :: 0 <= p < |speakers| ==>
              speakers[p] == Participant(ParticipantId(p + 1), "en-US", signatures[p])
    ensures forall p, q :: 0 <= p < q < |speakers| ==> speakers[p].userId != speakers[q].userId
  {
    speakers := [];
    var i := 1;
    for k := 0 to |signatures|
      invariant i == k + 1
      invariant |speakers| == k
      invariant forall p :: 0 <= p < k ==> speakers[p] == Participant(ParticipantId(p + 1), "en-US", signatures[p])
    {
      var speaker := Participant(ParticipantId(i), "en-US", signatures[k]);
      i := i + 1;
      speakers := speakers + [speaker];
    }
    forall p, q | 0 <= p < q < |speakers|
      ensures speakers[p].userId != speakers[q].userId
    {
      ParticipantIdInjective(p + 1, q + 1);
    }
  }

  /** One call of `TranscribeConversationsAsync` as far as this model goes:
      admit the participants, let the engine deliver `events`, and report
      whether the wait on `stopRecognition` ends, which is when the method
      goes on to `StopTranscribingAsync`. */
  method TranscribeConversations(signatures: seq<string>, events: seq<TranscriberEvent>)
    returns (speakers: seq<Participant>, log: seq<LogLine>, stopsTranscribing: bool)
    ensures |speakers| == |signatures|
    ensures forall p :: 0 <= p < |speakers| ==>
              speakers[p] == Participant(ParticipantId(p + 1), "en-US", signatures[p])
    ensures log == Replay(events)
    ensures stopsTranscribing <==> exists k :: 0 <= k < |events| && EndsSession(events[k])
    ensures stopsTranscribing <==> Announced(log)
  {
    var session := new TranscriptionSession();
    speakers := AdmitParticipants(signatures);
    var _ := session.Deliver(events);
    log := session.log;
    stopsTranscribing := session.stopRecognition.resolved;
    FirstEndIsFirst(events);
    assert [] + Replay(events) == Replay(events);
  }

  /** A cancellation with an error followed by the session stopping: both
      request the stop, only the first one sets the signal, and both still
      write their lines. */
  lemma ErrorThenStopResolvesOnce(code: string, details: string, id: string)
    ensures var trace := [Canceled(Error, code, details), SessionStopped(id)];
            FirstEnd(trace) == Some(0) &&
            Replay(trace) == [CanceledReasonLine(Error), CanceledErrorCodeLine(code),
                              CanceledErrorDetailsLine(details), SubscriptionHintLine,
                              SessionStoppedLine(id), StopRecognitionLine]
  {
    var first := [Canceled(Error, code, details)];
    var trace := [Canceled(Error, code, details), SessionStopped(id)];
    assert first[..0] == [];
    assert FirstEnd(first) == Some(0);
    assert Replay(first) == Handle(first[0]).lines;
    assert trace[..|trace| - 1] == first;
  }

  /** A cancellation for any other reason leaves the wait going. */
  lemma OtherCancellationKeepsWaiting(reason: CancellationReason, code: string, details: string)
    requires reason != Error
    ensures FirstEnd([Canceled(reason, code, details)]).None?
    ensures Replay([Canceled(reason, code, details)]) == [CanceledReasonLine(reason)]
  {
    assert [Canceled(reason, code, details)][..0] == [];
  }
}
