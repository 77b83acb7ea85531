/** One media stream of src/index.js: the state the `/media-stream` handler
    keeps per connection, and its reactions to telephony events, to events
    from the realtime speech model, and to its own timers. Sending is modelled
    as appending to an outbox, and scheduling a timer as appending to the list
    of pending timers; a timer callback runs when the caller of the model
    invokes the matching `Fire` method. */
module Session {
  import opened Common
  import opened Matching
  import opened Ledger
  import opened EmailSave
  import opened Calls

  /** The spoken instructions of a `response.create`: the opening greeting,
      or the thank-you and goodbye after an email was saved, each with the
      contact's name when it is known and non-empty. */
  datatype Prompt = Greeting(name: Option<string>) | Farewell(name: Option<string>)

  /** A message sent to the realtime speech model. */
  datatype AiCommand =
    | ConfigureSession
    | CreateResponse(prompt: Prompt)
    | FunctionResult(callId: string, success: bool)
    | AppendAudio(audio: string)

  /** A function result reporting success. */
  predicate IsSuccess(c: AiCommand)
  {
    c.FunctionResult? && c.success
  }

  /** Some command of the outbox reports a successful function call. */
  predicate ReportedSuccess(cmds: seq<AiCommand>)
  {
    exists i :: 0 <= i < |cmds| && IsSuccess(cmds[i])
  }

  /** Sending one more command reports success exactly when the command does
      or an earlier one did. */
  lemma SendReported(cmds: seq<AiCommand>, c: AiCommand)
    ensures ReportedSuccess(cmds + [c]) <==> ReportedSuccess(cmds) || IsSuccess(c)
  {
    if ReportedSuccess(cmds) {
      var i :| 0 <= i < |cmds| && IsSuccess(cmds[i]);
      assert (cmds + [c])[i] == cmds[i];
    }
    if IsSuccess(c) {
      assert (cmds + [c])[|cmds|] == c;
    }
  }

  /** A media frame sent back to the telephony stream. */
  datatype MediaFrame = MediaFrame(streamSid: Option<string>, payload: string)

  /** A `setTimeout` callback. */
  datatype Timer = SessionConfigTimer | GreetingTimer | EndCallTimer(delayMs: nat)

  /** The parsed arguments of a `collect_email` function call. */
  datatype EmailArgs = EmailArgs(email: string, confirmed: bool)

  /** The first output item of a `response.done` event when it is a function
      call; `arguments` is `None` when they are not valid JSON. */
  datatype FunctionCall = FunctionCall(name: string, callId: string, arguments: Option<EmailArgs>)

  const EndAfterEmailMs := 7000
  const EndAfterGoodbyeMs := 5000

  /** JavaScript truthiness of an optional string. */
  predicate Truthy(s: Option<string>)
  {
    s.Some? && s.value != ""
  }

  /** The contact's name, when the call data is known and the name non-empty. */
  function KnownName(call: Option<CallInfo>): (r: Option<string>)
    ensures r.Some? <==> call.Some? && call.value.name != ""
    ensures r.Some? ==> r.value == call.value.name
  {
    if call.Some? && call.value.name != "" then Some(call.value.name) else None
  }

  /** The `response.done` output asks to store a confirmed, non-empty email. */
  predicate IsEmailCollection(output: Option<FunctionCall>)
  {
    && output.Some? && output.value.name == "collect_email"
    && output.value.arguments.Some?
    && output.value.arguments.value.confirmed
    && output.value.arguments.value.email != ""
  }

  /** The position of the first listed call that `endCall`'s stream test
      accepts, as `calls.find` would return it. */
  function FirstEndCallIndex(sids: seq<string>, streamSid: string): (r: Option<nat>)
    ensures r.Some? ==> r.value < |sids| && EndCallMatch(sids[r.value], streamSid)
    ensures r.Some? ==> forall j :: 0 <= j < r.value ==> !EndCallMatch(sids[j], streamSid)
    ensures r.None? ==> forall j :: 0 <= j < |sids| ==> !EndCallMatch(sids[j], streamSid)
  {
    if sids == [] then None
    else if EndCallMatch(sids[0], streamSid) then Some(0)
    else match FirstEndCallIndex(sids[1..], streamSid)
      case None => None
      case Some(k) => Some(k + 1)
  }

  /** The call `endCall` hangs up: the known call identifier, or else the first
      recent call matching the stream identifier. */
  function HangupTarget(callSid: Option<string>, streamSid: Option<string>, recent: seq<string>): (r: Option<string>)
    ensures Truthy(callSid) ==> r == callSid
    ensures !Truthy(callSid) && !Truthy(streamSid) ==> r.None?
    ensures !Truthy(callSid) && Truthy(streamSid) ==>
      (r.Some? <==> exists j :: 0 <= j < |recent| && EndCallMatch(recent[j], streamSid.value))
    ensures !Truthy(callSid) && r.Some? ==> r.value in recent && EndCallMatch(r.value, streamSid.value)
    ensures !Truthy(callSid) && Truthy(streamSid) && r.Some? ==>
      exists j :: 0 <= j < |recent| && r.value == recent[j]
        && forall k :: 0 <= k < j ==> !EndCallMatch(recent[k], streamSid.value)
  {
    if Truthy(callSid) then callSid
    else if !Truthy(streamSid) then None
    else match FirstEndCallIndex(recent, streamSid.value)
      case None => None
      case Some(j) => Some(recent[j])
  }

  /** The pending timers once the one at position `i` has fired: that one
      occurrence leaves the list and every other timer stays. */
  function RemoveAt(ts: seq<Timer>, i: nat): (r: seq<Timer>)
    requires i < |ts|
    ensures |r| == |ts| - 1
    ensures multiset(r) + multiset{ts[i]} == multiset(ts)
  {
    assert ts == ts[..i] + [ts[i]] + ts[i + 1..];
    ts[..i] + ts[i + 1..]
  }

  /** The state of one `/media-stream` connection. */
  class MediaSession {
    var streamSid: Option<string>
    var callSid: Option<string>
    var currentCallData: Option<CallInfo>
    var emailCollected: bool
    /** The realtime model's socket is OPEN. */
    var aiOpen: bool
    var toAi: seq<AiCommand>
    var toTwilio: seq<MediaFrame>
    /** The timers scheduled and not yet fired. */
    var timers: seq<Timer>
    /** Every timer ever scheduled, and every timer that has fired, in order. */
    ghost var scheduled: seq<Timer>
    ghost var fired: seq<Timer>
    /** The calls asked to complete, in order. */
    var hangups: seq<string>

    /** Each scheduled timer is either still pending or has fired, once. A
        successful function result was reported exactly when an email was
        collected, and only then is the seven-second hang-up scheduled; no
        hang-up timer, and no hang-up, comes before an email was collected. */
    ghost predicate Valid()
      reads this
    {
      && multiset(timers) + multiset(fired) == multiset(scheduled)
      && (emailCollected <==> ReportedSuccess(toAi))
      && (emailCollected <==> EndCallTimer(EndAfterEmailMs) in scheduled)
      && (forall i :: 0 <= i < |scheduled| && scheduled[i].EndCallTimer? ==> emailCollected)
      && (|hangups| > 0 ==> emailCollected)
    }

    /** The connection is accepted: nothing known yet, nothing sent. */
    constructor ()
      ensures Valid()
      ensures streamSid.None? && callSid.None? && currentCallData.None? && !emailCollected && !aiOpen
      ensures toAi == [] && toTwilio == [] && timers == [] && hangups == []
      ensures scheduled == [] && fired == []
    {
      streamSid, callSid, currentCallData := None, None, None;
      emailCollected, aiOpen := false, false;
      toAi, toTwilio, timers, hangups := [], [], [], [];
      scheduled, fired := [], [];
    }

    /** The model's socket opens: the session configuration is sent one second later. */
    method OnAiOpen()
      requires Valid()
      modifies this
      ensures Valid()
      ensures aiOpen && timers == old(timers) + [SessionConfigTimer]
      ensures scheduled == old(scheduled) + [SessionConfigTimer] && fired == old(fired)
      ensures toAi == old(toAi) && emailCollected == old(emailCollected) && hangups == old(hangups)
      ensures streamSid == old(streamSid) && callSid == old(callSid) && currentCallData == old(currentCallData)
      ensures toTwilio == old(toTwilio)
    {
      aiOpen := true;
      timers := timers + [SessionConfigTimer];
      scheduled := scheduled + [SessionConfigTimer];
    }

    /** The configuration timer pending at position `i` fires, once: send
        `session.update`. */
    method FireSessionConfig(i: nat)
      requires Valid() && i < |timers| && timers[i] == SessionConfigTimer
      modifies this`toAi, this`timers, this`fired
      ensures Valid()
      ensures toAi == old(toAi) + [ConfigureSession]
      ensures timers == RemoveAt(old(timers), i) && fired == old(fired) + [SessionConfigTimer]
    {
      SendReported(toAi, ConfigureSession);
      toAi := toAi + [ConfigureSession];
      timers := RemoveAt(timers, i);
      fired := fired + [SessionConfigTimer];
    }

    /** `session.updated`: the greeting is requested one second later. */
    method OnSessionUpdated()
      requires Valid()
      modifies this`timers, this`scheduled
      ensures Valid()
      ensures timers == old(timers) + [GreetingTimer]
      ensures scheduled == old(scheduled) + [GreetingTimer]
    {
      timers := timers + [GreetingTimer];
      scheduled := scheduled + [GreetingTimer];
    }

    /** The greeting timer pending at position `i` fires, once: ask for the
        opening line, naming the contact known at that moment. */
    method FireGreeting(i: nat)
      requires Valid() && i < |timers| && timers[i] == GreetingTimer
      modifies this`toAi, this`timers, this`fired
      ensures Valid()
      ensures toAi == old(toAi) + [CreateResponse(Greeting(KnownName(currentCallData)))]
      ensures timers == RemoveAt(old(timers), i) && fired == old(fired) + [GreetingTimer]
    {
      SendReported(toAi, CreateResponse(Greeting(KnownName(currentCallData))));
      toAi := toAi + [CreateResponse(Greeting(KnownName(currentCallData)))];
      timers := RemoveAt(timers, i);
      fired := fired + [GreetingTimer];
    }

    /** `response.done`. Only a confirmed `collect_email` call with a non-empty
        email, on a stream whose call data is known, does anything: the email
        is saved through the two-stage save; on success the flag is set, a
        successful function result and the farewell are sent and the call is
        set to end in seven seconds; on failure an unsuccessful result is sent. */
    method OnResponseDone(output: Option<FunctionCall>, csv: CsvService, f: SaveFaults)
      requires Valid()
      modifies this, csv
      ensures Valid()
      ensures !IsEmailCollection(output) || old(currentCallData).None? ==> unchanged(this) && unchanged(csv)
      ensures IsEmailCollection(output) && old(currentCallData).Some? ==>
        var call := old(currentCallData).value;
        var request := output.value;
        var outcome := SaveEmailEffect(old(csv.State()), call.phoneNumber, request.arguments.value.email, f);
        && csv.State() == outcome.0
        && (outcome.1 ==>
              && emailCollected
              && toAi == old(toAi) + [FunctionResult(request.callId, true), CreateResponse(Farewell(KnownName(Some(call))))]
              && timers == old(timers) + [EndCallTimer(EndAfterEmailMs)]
              && scheduled == old(scheduled) + [EndCallTimer(EndAfterEmailMs)])
        && (!outcome.1 ==>
              && emailCollected == old(emailCollected)
              && toAi == old(toAi) + [FunctionResult(request.callId, false)]
              && timers == old(timers) && scheduled == old(scheduled))
      ensures fired == old(fired)
      ensures streamSid == old(streamSid) && callSid == old(callSid) && currentCallData == old(currentCallData)
      ensures aiOpen == old(aiOpen) && toTwilio == old(toTwilio) && hangups == old(hangups)
    {
      if !IsEmailCollection(output) || currentCallData.None? {
        return;
      }
      var call := currentCallData.value;
      var request := output.value;
      var saved := SaveEmail(csv, call.phoneNumber, request.arguments.value.email, f);
      ReportSave(saved, request.callId, call);
    }

    /** The reply to a `collect_email` call once the save has run: on success
        set the flag, report success, ask for the farewell and schedule the
        hang-up; on failure only report failure. */
    method ReportSave(saved: bool, callId: string, call: CallInfo)
      requires Valid()
      modifies this`emailCollected, this`toAi, this`timers, this`scheduled
      ensures Valid()
      ensures saved ==>
        && emailCollected
        && toAi == old(toAi) + [FunctionResult(callId, true), CreateResponse(Farewell(KnownName(Some(call))))]
        && timers == old(timers) + [EndCallTimer(EndAfterEmailMs)]
        && scheduled == old(scheduled) + [EndCallTimer(EndAfterEmailMs)]
      ensures !saved ==>
        && emailCollected == old(emailCollected)
        && toAi == old(toAi) + [FunctionResult(callId, false)]
        && timers == old(timers) && scheduled == old(scheduled)
    {
      if saved {
        emailCollected := true;
        SendReported(toAi, FunctionResult(callId, true));
        toAi := toAi + [FunctionResult(callId, true)];
        SendReported(toAi, CreateResponse(Farewell(KnownName(Some(call)))));
        toAi := toAi + [CreateResponse(Farewell(KnownName(Some(call))))];
        timers := timers + [EndCallTimer(EndAfterEmailMs)];
        scheduled := scheduled + [EndCallTimer(EndAfterEmailMs)];
      } else {
        SendReported(toAi, FunctionResult(callId, false));
        toAi := toAi + [FunctionResult(callId, false)];
      }
    }

    /** `response.audio.delta`: a non-empty delta is relayed to the caller. */
    method OnAudioDelta(delta: string)
      requires Valid()
      modifies this`toTwilio
      ensures Valid()
      ensures toTwilio == if delta != "" then old(toTwilio) + [MediaFrame(streamSid, delta)] else old(toTwilio)
    {
      if delta != "" {
        toTwilio := toTwilio + [MediaFrame(streamSid, delta)];
      }
    }

    /** `response.text.delta`: once an email was collected, a delta holding a
        goodbye phrase ends the call five seconds later (each such delta
        schedules its own timer). */
    method OnTextDelta(delta: string)
      requires Valid()
      modifies this`timers, this`scheduled
      ensures Valid()
      ensures timers == if delta != "" && emailCollected && IsGoodbye(delta)
        then old(timers) + [EndCallTimer(EndAfterGoodbyeMs)] else old(timers)
      ensures scheduled == if delta != "" && emailCollected && IsGoodbye(delta)
        then old(scheduled) + [EndCallTimer(EndAfterGoodbyeMs)] else old(scheduled)
    {
      if delta != "" && emailCollected && IsGoodbye(delta) {
        timers := timers + [EndCallTimer(EndAfterGoodbyeMs)];
        scheduled := scheduled + [EndCallTimer(EndAfterGoodbyeMs)];
      }
    }

    /** A telephony `media` event: the caller's audio goes to the model only
        while its socket is open. */
    method OnTwilioMedia(payload: string)
      requires Valid()
      modifies this`toAi
      ensures Valid()
      ensures toAi == if aiOpen then old(toAi) + [AppendAudio(payload)] else old(toAi)
    {
      if aiOpen {
        SendReported(toAi, AppendAudio(payload));
        toAi := toAi + [AppendAudio(payload)];
      }
    }

    /** A telephony `start` event: record the stream identifier, take the call
        identifier from the event or else the stream identifier, and look the
        call data up by it; failing that, adopt the first registered call the
        ten-character heuristic accepts. */
    method OnStart(startStreamSid: string, startCallSid: Option<string>, registry: CallRegistry)
      requires Valid() && registry.Valid()
      modifies this`streamSid, this`callSid, this`currentCallData
      ensures Valid()
      ensures streamSid == Some(startStreamSid)
      ensures var requested := if Truthy(startCallSid) then startCallSid.value else startStreamSid;
        if requested in registry.entries then
          callSid == Some(requested) && currentCallData == Some(registry.entries[requested])
        else match FirstFuzzyKey(registry.order, startStreamSid)
          case None => callSid == Some(requested) && currentCallData.None?
          case Some(key) => callSid == Some(key) && currentCallData == Some(registry.entries[key])
      ensures currentCallData.Some? ==>
        callSid.Some? && callSid.value in registry.entries && currentCallData.value == registry.entries[callSid.value]
    {
      streamSid := Some(startStreamSid);
      callSid := if Truthy(startCallSid) then startCallSid else Some(startStreamSid);
      currentCallData := registry.Get(callSid.value);
      if currentCallData.None? {
        var key := registry.FindFuzzy(startStreamSid);
        if key.Some? {
          currentCallData := registry.Get(key.value);
          callSid := key;
        }
      }
    }

    /** `endCall`, run once by the hang-up timer pending at position `i`:
        complete the known call, or else the first recent call matching the
        stream identifier (a failing listing ends the function before the
        socket is closed), then close the model's socket if it is open. A
        failing hang-up request is swallowed. */
    method FireEndCall(i: nat, recentCalls: Outcome<seq<string>>)
      requires Valid() && i < |timers| && timers[i].EndCallTimer?
      modifies this`hangups, this`aiOpen, this`timers, this`fired
      ensures Valid()
      ensures timers == RemoveAt(old(timers), i) && fired == old(fired) + [old(timers)[i]]
      ensures !Truthy(callSid) && Truthy(streamSid) && recentCalls.Threw? ==>
        hangups == old(hangups) && aiOpen == old(aiOpen)
      ensures Truthy(callSid) || !Truthy(streamSid) || recentCalls.Returned? ==>
        var target := HangupTarget(callSid, streamSid, if recentCalls.Returned? then recentCalls.value else []);
        && hangups == old(hangups) + (if target.Some? then [target.value] else [])
        && !aiOpen
    {
      assert timers[i] in multiset(scheduled);
      fired := fired + [timers[i]];
      timers := RemoveAt(timers, i);
      if Truthy(callSid) {
        hangups := hangups + [callSid.value];
      } else if Truthy(streamSid) {
        if recentCalls.Threw? {
          return;
        }
        var found := FirstEndCallIndex(recentCalls.value, streamSid.value);
        if found.Some? {
          hangups := hangups + [recentCalls.value[found.value]];
        }
      }
      if aiOpen {
        aiOpen := false;
      }
    }

    /** The telephony connection closes: close the model's socket if open. */
    method OnTwilioClose()
      requires Valid()
      modifies this`aiOpen
      ensures Valid() && !aiOpen
    {
      if aiOpen {
        aiOpen := false;
      }
    }

    /** The model's socket reports that it closed. */
    method OnAiClose()
      requires Valid()
      modifies this`aiOpen
      ensures Valid() && !aiOpen
    {
      aiOpen := false;
    }
  }
}
