/** `CallService` (src/services/call.service.js): per call, a chat context
    that starts empty and grows one exchange at a time. */
module CallSessions {
  import opened Common
  import opened Conversation

  /** An `activeStreams` entry (its start time is left out). */
  datatype SessionEntry = SessionEntry(context: seq<Turn>)

  class CallService {
    var activeStreams: map<string, SessionEntry>

    /** Every context is a transcript of exchanges. */
    ghost predicate Valid()
      reads this
    {
      forall k :: k in activeStreams ==> Alternating(activeStreams[k].context)
    }

    constructor ()
      ensures Valid() && activeStreams == map[]
    {
      activeStreams := map[];
    }

    /** `initiateCall`: dial, then store an empty context under the returned
        identifier and return it; a failing dial is rethrown and stores
        nothing. */
    method InitiateCall(phoneNumber: string, dialled: Outcome<string>) returns (r: Result<string>)
      requires Valid()
      modifies this
      ensures Valid()
      ensures dialled.Threw? ==> r == Err(ProviderFailure) && activeStreams == old(activeStreams)
      ensures dialled.Returned? ==>
        r == Ok(dialled.value) && activeStreams == old(activeStreams)[dialled.value := SessionEntry([])]
    {
      if dialled.Threw? {
        return Err(ProviderFailure);
      }
      activeStreams := activeStreams[dialled.value := SessionEntry([])];
      return Ok(dialled.value);
    }

    /** `handleUserInput`: an unknown call is rejected; otherwise ask the chat
        model (whose error is rethrown and changes nothing), synthesise its
        answer, append the exchange to that call's context and return the
        audio, which is `null` when the synthesis failed. */
    method HandleUserInput(callSid: string, userInput: string, response: Outcome<string>, provider: Outcome<Audio>)
      returns (r: Result<Option<Audio>>)
      requires Valid()
      modifies this
      ensures Valid()
      ensures callSid !in old(activeStreams) ==> r == Err(CallNotFound) && activeStreams == old(activeStreams)
      ensures callSid in old(activeStreams) && response.Threw? ==>
        r == Err(ProviderFailure) && activeStreams == old(activeStreams)
      ensures callSid in old(activeStreams) && response.Returned? ==>
        && r == Ok(TextToSpeech(response.value, provider))
        && activeStreams == old(activeStreams)[callSid := SessionEntry(old(activeStreams)[callSid].context + Exchange(userInput, response.value))]
    {
      if callSid !in activeStreams {
        return Err(CallNotFound);
      }
      var callData := activeStreams[callSid];
      if response.Threw? {
        return Err(ProviderFailure);
      }
      var audio := TextToSpeech(response.value, provider);
      ExchangeKeepsAlternating(callData.context, userInput, response.value);
      activeStreams := activeStreams[callSid := SessionEntry(callData.context + Exchange(userInput, response.value))];
      return Ok(audio);
    }
  }
}
