/** `CallManagerService` (src/services/callManager.service.js): per call, a
    chat context that opens with a fixed system message, plus an
    `emailCollected` flag that nothing ever sets. */
module CallManager {
  import opened Common
  import opened Conversation

  const SystemPrompt := "You are an AI assistant making calls about a weekly AI newsletter. Keep responses concise and engaging. The newsletter is delivered every Wednesday morning and is free."
  /** The fixed greeting; its opening is a literal of its own so that proofs
      can see its first character. */
  const GreetingText: string := "Hi! " + "I'm calling about our weekly AI newsletter that keeps professionals updated with the latest AI trends. Would you be interested in hearing more?"
  const PlaceholderTranscript := "Hello, tell me about the newsletter"

  /** An `activeStreams` entry (its start time is left out). */
  datatype StreamEntry = StreamEntry(context: seq<Turn>, emailCollected: bool)

  function SystemTurn(): Turn
  {
    Turn(System, SystemPrompt)
  }

  /** The context opens with the system message, which never recurs, and its
      remaining turns alternate caller and assistant; the flag is never set. */
  predicate WellFormed(e: StreamEntry)
  {
    && |e.context| >= 1 && e.context[0] == SystemTurn()
    && (Alternating(e.context[1..]) || (e.context[1].role == Assistant && Alternating(e.context[2..])))
    && !e.emailCollected
  }

  /** A well-formed context holds no system turn after the first one, and
      every caller turn in it is answered by the next turn. */
  lemma WellFormedShape(e: StreamEntry)
    requires WellFormed(e)
    ensures forall i :: 1 <= i < |e.context| ==> e.context[i].role != System
    ensures forall i :: 1 <= i < |e.context| && e.context[i].role == User ==>
      i + 1 < |e.context| && e.context[i + 1].role == Assistant
  {
    var c := e.context;
    if Alternating(c[1..]) {
      forall i | 1 <= i < |c|
        ensures c[i].role != System
        ensures c[i].role == User ==> i + 1 < |c| && c[i + 1].role == Assistant
      {
        assert c[i] == c[1..][i - 1];
        if c[i].role == User {
          assert (i - 1) % 2 == 0;
          assert c[i + 1] == c[1..][i];
        }
      }
    } else {
      forall i | 2 <= i < |c|
        ensures c[i].role != System
        ensures c[i].role == User ==> i + 1 < |c| && c[i + 1].role == Assistant
      {
        assert c[i] == c[2..][i - 2];
        if c[i].role == User {
          assert (i - 2) % 2 == 0;
          assert c[i + 1] == c[2..][i - 1];
        }
      }
    }
  }

  /** One more exchange keeps an entry well formed. */
  lemma ExchangeKeepsWellFormed(e: StreamEntry, input: string, response: string)
    requires WellFormed(e)
    ensures WellFormed(e.(context := e.context + Exchange(input, response)))
  {
    var c := e.context + Exchange(input, response);
    if Alternating(e.context[1..]) {
      assert c[1..] == e.context[1..] + Exchange(input, response);
      ExchangeKeepsAlternating(e.context[1..], input, response);
    } else {
      assert c[2..] == e.context[2..] + Exchange(input, response);
      ExchangeKeepsAlternating(e.context[2..], input, response);
    }
  }

  class CallManagerService {
    var activeStreams: map<string, StreamEntry>

    ghost predicate Valid()
      reads this
    {
      forall k :: k in activeStreams ==> WellFormed(activeStreams[k])
    }

    constructor ()
      ensures Valid() && activeStreams == map[]
    {
      activeStreams := map[];
    }

    /** `initiateCall`: dial, then store a fresh entry holding only the system
        message under the returned identifier; a failing dial is rethrown
        and stores nothing. */
    method InitiateCall(phoneNumber: string, dialled: Outcome<string>) returns (r: Result<string>)
      requires Valid()
      modifies this
      ensures Valid()
      ensures dialled.Threw? ==> r == Err(ProviderFailure) && activeStreams == old(activeStreams)
      ensures dialled.Returned? ==>
        && r == Ok(dialled.value)
        && activeStreams == old(activeStreams)[dialled.value := StreamEntry([SystemTurn()], false)]
    {
      if dialled.Threw? {
        return Err(ProviderFailure);
      }
      var callSid := dialled.value;
      activeStreams := activeStreams[callSid := StreamEntry([SystemTurn()], false)];
      return Ok(callSid);
    }

    /** `getInitialGreeting`: synthesise the fixed greeting, then overwrite the
        entry for the call with the system message followed by the greeting,
        and return both forms. The speech wrapper never throws, so the entry
        is overwritten even when the audio is `null`. */
    method GetInitialGreeting(callSid: string, provider: Outcome<Audio>) returns (r: Reply)
      requires Valid()
      modifies this
      ensures Valid()
      ensures r == Reply(TextToSpeech(GreetingText, provider), GreetingText)
      ensures r.audio.Some? <==> provider.Returned?
      ensures activeStreams == old(activeStreams)[callSid := StreamEntry([SystemTurn(), Turn(Assistant, GreetingText)], false)]
    {
      var audio := TextToSpeech(GreetingText, provider);
      assert GreetingText[0] == "Hi! "[0];
      SpokenUnlessProviderFails(GreetingText, provider);
      assert Alternating([Turn(Assistant, GreetingText)][1..]);
      activeStreams := activeStreams[callSid := StreamEntry([SystemTurn(), Turn(Assistant, GreetingText)], false)];
      return Reply(audio, GreetingText);
    }

    /** `handleConversation`: an unknown call is rejected; otherwise ask the
        chat model (whose error is rethrown and changes nothing), synthesise
        its answer, append the caller's input and the answer to that call's
        context, and return the answer with its audio, which is `null` when
        the synthesis failed. */
    method HandleConversation(callSid: string, userInput: string, response: Outcome<string>, provider: Outcome<Audio>)
      returns (r: Result<Reply>)
      requires Valid()
      modifies this
      ensures Valid()
      ensures callSid !in old(activeStreams) ==> r == Err(CallNotFound) && activeStreams == old(activeStreams)
      ensures callSid in old(activeStreams) && response.Threw? ==>
        r == Err(ProviderFailure) && activeStreams == old(activeStreams)
      ensures callSid in old(activeStreams) && response.Returned? ==>
        var entry := old(activeStreams)[callSid];
        && r == Ok(Reply(TextToSpeech(response.value, provider), response.value))
        && activeStreams == old(activeStreams)[callSid := entry.(context := entry.context + Exchange(userInput, response.value))]
    {
      if callSid !in activeStreams {
        return Err(CallNotFound);
      }
      var callData := activeStreams[callSid];
      if response.Threw? {
        return Err(ProviderFailure);
      }
      var audio := TextToSpeech(response.value, provider);
      ExchangeKeepsWellFormed(callData, userInput, response.value);
      activeStreams := activeStreams[callSid := callData.(context := callData.context + Exchange(userInput, response.value))];
      return Ok(Reply(audio, response.value));
    }

    /** `processAudioInput`: a placeholder transcript, whatever the audio. */
    method ProcessAudioInput(audio: Audio) returns (text: string)
      ensures text == PlaceholderTranscript
    {
      return PlaceholderTranscript;
    }
  }
}
