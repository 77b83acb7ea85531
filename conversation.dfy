/** The conversation context shared by the two context registries
    (src/services/callManager.service.js and src/services/call.service.js):
    chat turns, replies, and the errors their methods throw. */
module Conversation {
  import opened Common

  datatype Role = System | User | Assistant

  /** One `{role, content}` message of a chat context. */
  datatype Turn = Turn(role: Role, content: string)

  /** Synthesised speech, as the text-to-speech provider returns it. */
  type Audio = seq<bv8>

  /** The characters `trim` removes: JavaScript's white space and line
      terminators. */
  predicate IsTrimmed(c: char)
  {
    || c == '\t' || c == '\n' || c == '\U{000B}' || c == '\U{000C}' || c == '\r' || c == ' '
    || c == '\U{00A0}' || c == '\U{1680}' || '\U{2000}' <= c <= '\U{200A}' || c == '\U{2028}' || c == '\U{2029}'
    || c == '\U{202F}' || c == '\U{205F}' || c == '\U{3000}' || c == '\U{FEFF}'
  }

  /** `!text || text.trim() === ''`: the text is empty or white space only. */
  predicate Blank(text: string)
  {
    forall i :: 0 <= i < |text| ==> IsTrimmed(text[i])
  }

  /** `textToSpeech` (src/services/elevenlabs.service.js): `null` for blank
      text, the provider's audio when the request returns, and `null` when it
      throws, since the wrapper catches every error. It never throws itself. */
  function TextToSpeech(text: string, provider: Outcome<Audio>): (r: Option<Audio>)
    ensures r.Some? <==> !Blank(text) && provider.Returned?
    ensures r.Some? ==> r.value == provider.value
  {
    if Blank(text) then None
    else match provider
      case Returned(audio) => Some(audio)
      case Threw => None
  }

  /** A text whose first character is not white space is spoken exactly when
      the provider returns. */
  lemma SpokenUnlessProviderFails(text: string, provider: Outcome<Audio>)
    requires |text| > 0 && !IsTrimmed(text[0])
    ensures TextToSpeech(text, provider).Some? <==> provider.Returned?
  {
  }

  /** `{audio, text}`: the spoken and the written form of one reply; the audio
      is `None` where the speech wrapper answered `null`. */
  datatype Reply = Reply(audio: Option<Audio>, text: string)

  /** What the registries throw: the `'Call not found'` error, or an error
      rethrown from a provider call. */
  datatype Failure = CallNotFound | ProviderFailure

  /** A returned value, or a thrown `Failure`. */
  datatype Result<+T> = Ok(value: T) | Err(error: Failure)

  /** The two turns one exchange appends: the caller's input, then the reply. */
  function Exchange(input: string, response: string): seq<Turn>
  {
    [Turn(User, input), Turn(Assistant, response)]
  }

  /** The context built by a sequence of exchanges, oldest first. */
  function Transcript(exchanges: seq<(string, string)>): seq<Turn>
  {
    if exchanges == [] then []
    else Transcript(exchanges[..|exchanges| - 1]) + Exchange(exchanges[|exchanges| - 1].0, exchanges[|exchanges| - 1].1)
  }

  /** Caller and assistant turns alternate, starting with the caller, and
      every caller turn has its reply. */
  predicate Alternating(c: seq<Turn>)
  {
    |c| % 2 == 0 && forall i :: 0 <= i < |c| ==> c[i].role == if i % 2 == 0 then User else Assistant
  }

  /** The turns of a transcript are its exchanges in order: exchange `k` is
      turns `2k` and `2k + 1`. */
  lemma {:induction false} TranscriptLayout(exchanges: seq<(string, string)>)
    ensures |Transcript(exchanges)| == 2 * |exchanges|
    ensures forall k :: 0 <= k < |exchanges| ==>
      Transcript(exchanges)[2 * k] == Turn(User, exchanges[k].0) &&
      Transcript(exchanges)[2 * k + 1] == Turn(Assistant, exchanges[k].1)
  {
    if exchanges != [] {
      var front := exchanges[..|exchanges| - 1];
      TranscriptLayout(front);
      forall k | 0 <= k < |exchanges|
        ensures Transcript(exchanges)[2 * k] == Turn(User, exchanges[k].0)
        ensures Transcript(exchanges)[2 * k + 1] == Turn(Assistant, exchanges[k].1)
      {
        if k < |front| {
          assert exchanges[k] == front[k];
        }
      }
    }
  }

  /** The exchanges of an even-length context, read two turns at a time. */
  function Pairs(c: seq<Turn>): seq<(string, string)>
    requires |c| % 2 == 0
  {
    seq(|c| / 2, k requires 0 <= k < |c| / 2 => (c[2 * k].content, c[2 * k + 1].content))
  }

  /** Every transcript alternates. */
  lemma TranscriptAlternates(exchanges: seq<(string, string)>)
    ensures Alternating(Transcript(exchanges))
  {
    TranscriptLayout(exchanges);
    var c := Transcript(exchanges);
    forall i | 0 <= i < |c|
      ensures c[i].role == if i % 2 == 0 then User else Assistant
    {
      var k := i / 2;
      if i % 2 == 0 {
        assert i == 2 * k && c[i] == Turn(User, exchanges[k].0);
      } else {
        assert i == 2 * k + 1 && c[i] == Turn(Assistant, exchanges[k].1);
      }
    }
  }

  /** An alternating context is the transcript of its own exchanges. */
  lemma AlternatingIsTranscriptOfPairs(c: seq<Turn>)
    requires Alternating(c)
    ensures Transcript(Pairs(c)) == c
  {
    var exchanges := Pairs(c);
    TranscriptLayout(exchanges);
    var t := Transcript(exchanges);
    forall i | 0 <= i < |c|
      ensures t[i] == c[i]
    {
      var k := i / 2;
      assert k < |exchanges| && exchanges[k] == (c[2 * k].content, c[2 * k + 1].content);
      if i % 2 == 0 {
        assert i == 2 * k && t[i] == Turn(User, c[i].content);
      } else {
        assert i == 2 * k + 1 && t[i] == Turn(Assistant, c[i].content);
      }
    }
  }

  /** A context is alternating exactly when it is the transcript of some
      sequence of exchanges. */
  lemma AlternatingIsTranscript(c: seq<Turn>)
    ensures Alternating(c) <==> exists exchanges :: Transcript(exchanges) == c
  {
    if Alternating(c) {
      AlternatingIsTranscriptOfPairs(c);
    }
    if exists exchanges :: Transcript(exchanges) == c {
      var exchanges: seq<(string, string)> :| Transcript(exchanges) == c;
      TranscriptAlternates(exchanges);
    }
  }

  /** One more exchange keeps a context alternating. */
  lemma ExchangeKeepsAlternating(c: seq<Turn>, input: string, response: string)
    requires Alternating(c)
    ensures Alternating(c + Exchange(input, response))
  {
  }
}
