# Outbound newsletter caller: a verified model

The system dials the contacts of a CSV ledger one after the other. A
realtime speech model talks to each callee over a media stream and asks
for their email address. The address is written back to the ledger, and
each call's outcome is recorded in the contact's `Status` column. This
project models the parts of that system that hold decisions, and proves
what they do:

- the contact ledger and its write protocol (`csv.service.js`): backup, merge,
  rewrite with fixed headers, read back, then delete the backup or restore
  from it;
- the two-stage email save of the orchestrator (`index.js`): the ledger
  service first, then the direct rewrite without a backup;
- the call registry, the paced call queue, and the status webhook's
  final-status reconciliation (`index.js`);
- one media stream's session (`index.js`): identifier lookup at stream
  start, the `collect_email` function call, goodbye detection, audio relay in
  both directions, and `endCall`;
- the two conversation-context registries (`callManager.service.js`,
  `call.service.js`).

Modules, one per concern:

| file | module | models |
|---|---|---|
| common.dfy | `Common` | `Option` (null/undefined) and `Outcome` (a returned value or a thrown error) |
| matching.dfy | `Matching` | `includes`, `substring(0, n)`, `toLowerCase`, the goodbye phrases, the two ten-character identifier heuristics |
| ledger.dfy | `Ledger` | `CSVService`: the file, its `.backup`, and the step-by-step `updateContact` |
| email_save.dfy | `EmailSave` | `directSaveEmailToCSV` and the two-stage save of the `collect_email` branch |
| calls.dfy | `Calls` | `activeCallsMap`, `processCallQueue`, the `/webhook/status` handler |
| session.dfy | `Session` | the per-connection state of `/media-stream` and its event handlers |
| conversation.dfy | `Conversation` | chat turns, replies, the answer of `textToSpeech`, and transcripts of exchanges |
| call_manager.dfy | `CallManager` | `CallManagerService` |
| call_service.dfy | `CallSessions` | `CallService` |

How the outside world enters the model:

- **Files.** A file is `Option<Table>`, where `None` means absent. A table is
  the list of records that parsing yields, and a record is a
  `map<string, string>`.
- **CSV writing.** Stringifying with the fixed headers and parsing the result
  back is modelled as `Ledger.Project` on each record. A record keeps exactly
  the four header columns, and an absent column becomes empty.
- **File-system faults.** A fault in the file system is a parameter naming the
  one step that throws, or none.
- **Remote calls.** Dialling, listing recent calls, chat completion and the
  speech provider's request are `Outcome` parameters supplied by the caller.
  The speech wrapper `textToSpeech` catches every error itself, so it never
  throws; it is modelled as `Conversation.TextToSpeech`, which answers `None`
  (the wrapper's `null`) for blank text or a failed request.
- **Timers and sends.** A timer is a record in a list of pending timers.
  Firing it is a separate method, which names the pending timer it runs and
  removes it from the list, so each scheduled callback runs at most once. Ghost
  histories of the scheduled and the fired timers let the session invariant
  speak of timers that have already run. A message sent on a socket is
  appended to an outbox.

Each method that changes state is tied to a specification function of the old
state. For example, `UpdateContact`'s new file, backup and result equal
`Ledger.UpdateEffect(old state)`. The lemmas then state what the source
promises about those functions.

Behaviours of the code that the model keeps:

- `initializeCSV` writes a header row and one row of empty fields.
- An exception inside `updateContact` does not restore the backup. After the
  rewrite, the new contents stay.
- An unconfirmed or incomplete `collect_email` call sends nothing back to the
  speech model.
- Termination has no idempotence guard. Every goodbye delta after an email
  was collected schedules another `endCall`.
- `endCall`'s stream-identifier test is one-sided: the listed call must
  contain the stream identifier's first ten characters. The stream-start
  lookup's test works in both directions.

## Model

| member | source | states |
|---|---|---|
| Matching.ContainsIffOccurs | src/index.js:405-420 | the left-to-right scan modelling `includes` holds exactly when the substring starts at some position |
| Matching.Prefix | src/index.js:473 | `substring(0, n)` keeps the first `n` characters, or the whole string when it is shorter |
| Matching.PrefixContained | src/index.js:473 | a string contains its own prefix, so a registry key always matches itself |
| Matching.Lower | src/index.js:419 | `toLowerCase` keeps the length and lower-cases every character |
| Matching.LowerIdempotent | src/index.js:419 | lower-casing twice is lower-casing once |
| Matching.GoodbyeIgnoresCase | src/index.js:409-419 | the goodbye test gives the same answer for a delta and its lower-cased form |
| Matching.GoodbyeDetected | src/index.js:409-419 | a delta whose lower-cased form has one of the five phrases at some position is a goodbye |
| Matching.FuzzyMatchSymmetricReflexive | src/index.js:473 | the stream-start heuristic is symmetric and accepts equal identifiers |
| Matching.FuzzyMatchFalsePositives | src/index.js:473 | it also accepts distinct identifiers with the same first ten characters, and an empty identifier matches everything |
| Matching.EndCallMatchIsOneSidedFuzzy | src/index.js:246-249 | `endCall`'s test reduces to its containment half, and every call it accepts passes the stream-start heuristic too |
| Ledger.Project | src/services/csv.service.js:10 | a written-and-reparsed record has exactly the four header columns, keeps their values, and has "" for the missing ones |
| Ledger.ProjectKeepsRectangularRecord | src/services/csv.service.js:87-101 | a record with exactly the header columns survives the rewrite unchanged |
| Ledger.RoundTrip | src/services/csv.service.js:87-101 | the rewrite keeps the number and order of records and projects each one |
| Ledger.FirstIndex | src/services/csv.service.js:103 | a position that `find` returns holds a record with the phone number, and no earlier record has it |
| Ledger.Find | src/services/csv.service.js:137 | `find` returns the record at the first matching position, and nothing when there is no such position |
| Ledger.FindsAnyMatch | src/services/csv.service.js:103 | `find` comes back empty exactly when no record carries the phone number |
| Ledger.FirstIndexPointwise | src/services/csv.service.js:103 | two tables whose records agree, position by position, on having the number have the same first match |
| Ledger.MergeScope | src/services/csv.service.js:71-80 | every matching record becomes `{...contact, ...updates}`; every other record passes through unchanged and in place |
| Ledger.MapMatching | src/services/csv.service.js:71-80 | the loop builds the merged table, and the `updated` flag is set exactly when some record matched |
| Ledger.RewriteKeepsFirstMatch | src/services/csv.service.js:96-103 | when every record has a phone column and the updates keep the number, the read-back finds the same record position |
| Ledger.UpdateOldOrNew | src/services/csv.service.js:55-131 | after any run of `updateContact`, the file holds either its old contents or the rewritten table |
| Ledger.RewrittenKeyed | src/services/csv.service.js:87-93 | the rewritten table has a phone column in every record, and the number stays present when the updates keep it |
| Ledger.UpdateNotFound | src/services/csv.service.js:60-85 | when no record matches, the file is untouched, the result is false, and the backup copy made earlier is left behind |
| Ledger.ProjectShowsUpdates | src/services/csv.service.js:88-108 | every update shows in a rewritten record exactly when all update keys are header columns |
| Ledger.ReadBackIff | src/services/csv.service.js:103-110 | for a matching file, the read-back check passes exactly when the updates keep the number and use only header columns |
| Ledger.UpdateResultWithoutFault | src/services/csv.service.js:82-126 | without faults, an update of an existing file returns true exactly when a record has the number and the read-back check passes |
| Ledger.UpdateCommits | src/services/csv.service.js:110-114 | without faults, a passing read-back leaves the rewritten table in the file, deletes the backup and returns true |
| Ledger.UpdateSucceedsIff | src/services/csv.service.js:55-131 | without faults, `updateContact` returns true exactly when the number is present and the updates keep it and use only header columns |
| Ledger.UpdateSuccessMeans | src/services/csv.service.js:110-114 | a true result means the number was present, the check passed, the file holds the rewritten table, and the backup is gone |
| Ledger.RewrittenContents | src/services/csv.service.js:71-93 | every record is rewritten in place as its projection. A record with exactly the header columns stays unchanged if it does not match; if it matches and the read-back check passes, it becomes `{...contact, ...updates}` |
| Ledger.UpdateRollsBack | src/services/csv.service.js:115-126 | a failing read-back restores the file from the backup exactly, keeps the backup, and returns false |
| Ledger.UnknownColumnRollsBack | src/services/csv.service.js:88-120 | an update key outside the header columns always makes the update roll back |
| Ledger.UpdateExceptionAfterWrite | src/services/csv.service.js:127-130 | an exception after the write returns false without restoring, so the rewritten table stays |
| Ledger.InitialTable | src/services/csv.service.js:18-21 | a new file holds one record with the four header columns, all empty |
| Ledger.CsvService.constructor | src/services/csv.service.js:7-12 | construction runs the initialisation on the file found on disk |
| Ledger.CsvService.InitializeCsv | src/services/csv.service.js:14-37 | an existing file is never changed; a missing one is created with the blank table unless the write throws |
| Ledger.CsvService.ReadContacts | src/services/csv.service.js:39-53 | returns the table exactly when the file exists and the read does not throw |
| Ledger.CsvService.GetContactStatus | src/services/csv.service.js:133-150 | the Status of the first matching record, or null when there is none or the read fails |
| Ledger.CsvService.UpdateContact | src/services/csv.service.js:55-131 | the step-by-step protocol ends in exactly the file, backup and result of `UpdateEffect` |
| EmailSave.EmailUpdates | src/index.js:313-316 | the updates set Email and Status 'Email Collected', use only header columns, and never touch the phone number |
| EmailSave.DirectSaveNotFound | src/index.js:51-54 | the direct save with no matching record returns false and writes nothing |
| EmailSave.DirectSaveNeverRollsBack | src/index.js:27-86 | the direct save never touches the backup, and a failed check leaves the rewritten file in place |
| EmailSave.DirectSaveSucceeds | src/index.js:57-81 | for a matching file and no fault before the read-back, the direct save succeeds and the first match carries the email |
| EmailSave.DirectSaveEmailToCsv | src/index.js:27-86 | the step-by-step direct save ends in exactly the file and result of `DirectSaveEffect` |
| EmailSave.SavedEmailIsShown | src/index.js:319-336 | when the two-stage save reports success, the first record with the number carries the email |
| EmailSave.SaveEmailNotFound | src/index.js:311-332 | with no record for the number the save fails, and the file contents never change |
| EmailSave.SaveEmailFirstStage | src/index.js:311-324 | without faults, the ledger service alone saves the email; the fallback is not needed and the backup is gone |
| EmailSave.SaveEmailFallbackRecovers | src/index.js:325-332 | whatever the service path does, a direct save without faults before its read-back still makes the save succeed |
| EmailSave.SaveEmail | src/index.js:306-332 | the two-stage save ends in exactly the file and result of `SaveEmailEffect` |
| Calls.Appended | src/index.js:131 | `Map.set` keeps every old key and adds the new one, and the key order stays free of duplicates |
| Calls.Without | src/index.js:518-533 | `Map.delete` drops exactly that key, and the key order stays free of duplicates |
| Calls.FirstFuzzyIndex | src/index.js:472-479 | the first registry key, in insertion order, that the heuristic accepts; none only when no key is accepted |
| Calls.CallRegistry.constructor | src/index.js:111 | the registry starts empty |
| Calls.CallRegistry.Get | src/index.js:468 | `get` finds exactly the registered keys and their data |
| Calls.CallRegistry.Set | src/index.js:131-135 | the entry is stored or replaced, and a new key goes last in the order |
| Calls.CallRegistry.Delete | src/index.js:518-533 | the entry is removed, and the others keep their relative order |
| Calls.CallRegistry.FindFuzzy | src/index.js:472-479 | the scan returns the first accepted key; it is registered, and when none is returned no key is accepted |
| Calls.DialStatus | src/index.js:137-149 | after a dial only the Status column is written: 'Call Initiated' exactly when the dial returned, 'Call Failed' exactly when it threw |
| Calls.Phones | src/index.js:126-130 | the numbers dialled are the contacts' phone columns, in file order, one each |
| Calls.QueueRegistersSuccessfulDials | src/index.js:129-135 | the registry gains exactly the identifiers returned by successful dials |
| Calls.QueueEntryIsLastDial | src/index.js:131-135 | the entry under a returned identifier holds the name and number of the last contact whose dial returned it |
| Calls.StatusUpdateTouchesOnlyStatus | src/index.js:137-149 | one status update keeps a rectangular file's rows in place and changes nothing but Status |
| Calls.QueueTouchesOnlyStatus | src/index.js:113-153 | the whole queue changes no Name, Phone Number or Email, and keeps every row in place |
| Calls.CallOne | src/index.js:129-152 | after one dial: a returned identifier is registered for the contact, then the contact's status update runs |
| Calls.ProcessCallQueue | src/index.js:113-159 | reads once and dials every contact once, in order; registry and ledger end as the queue functions say; a failed read dials no one |
| Calls.FinalStatus | src/index.js:511-513 | 'Call Completed - Email Collected' exactly when the current status is 'Email Collected', otherwise 'Call Completed - Not Interested' |
| Calls.OnStatusWebhook | src/index.js:503-537 | 'completed' writes the final status and 'failed' writes 'Call Failed', each removing the entry; anything else, or an unknown call, changes nothing |
| Session.SendReported | src/index.js:338-383 | an outbox reports a successful function call exactly when one of its messages does |
| Session.KnownName | src/index.js:287-289 | the contact's name is used exactly when the call data is known and the name is non-empty |
| Session.FirstEndCallIndex | src/index.js:246-249 | `calls.find`: the first listed call `endCall`'s test accepts; none only when no listed call is accepted |
| Session.RemoveAt | src/index.js:193-227 | a timer that fires leaves the pending list exactly once: the list loses that one occurrence and keeps every other timer |
| Session.HangupTarget | src/index.js:235-256 | `endCall` targets the known call identifier; failing that, the first recent call matching the stream identifier (no earlier listed call matches); failing that, nothing |
| Session.MediaSession.constructor | src/index.js:185-188 | a new connection knows no identifiers, has no call data, and has collected no email |
| Session.MediaSession.OnAiOpen | src/index.js:190-228 | the model's socket is open and the session configuration is scheduled |
| Session.MediaSession.FireSessionConfig | src/index.js:193-227 | the configuration timer sends `session.update` and leaves the pending list, so it runs once |
| Session.MediaSession.OnSessionUpdated | src/index.js:273-293 | `session.updated` schedules the greeting request |
| Session.MediaSession.FireGreeting | src/index.js:276-292 | the greeting request names the contact when one is known at that moment; the timer leaves the pending list, so it runs once |
| Session.MediaSession.OnResponseDone | src/index.js:295-394 | only a confirmed, non-empty `collect_email` call on a known call saves. Success sets the flag, sends a successful result and the farewell, and schedules the hang-up after 7 s. Failure sends only an unsuccessful result. Nothing else sends anything |
| Session.MediaSession.ReportSave | src/index.js:335-386 | after the save: success sets the flag, reports success, asks for the farewell and schedules the 7 s hang-up; failure only reports failure |
| Session.MediaSession.OnAudioDelta | src/index.js:396-403 | a non-empty audio delta is relayed to the caller, tagged with the stream identifier |
| Session.MediaSession.OnTextDelta | src/index.js:405-423 | a hang-up after 5 s is scheduled exactly when an email was already collected and the delta holds a goodbye phrase |
| Session.MediaSession.OnTwilioMedia | src/index.js:451-459 | the caller's audio is forwarded unchanged exactly when the model's socket is open |
| Session.MediaSession.OnStart | src/index.js:461-481 | the call identifier defaults to the stream identifier. An exact registry hit wins; otherwise the first key the heuristic accepts is adopted; otherwise there is no call data |
| Session.MediaSession.FireEndCall | src/index.js:231-267 | the firing hang-up timer leaves the pending list; hangs up the target `HangupTarget` chooses and closes the model's socket; a failing call listing stops before the close |
| Session.MediaSession.OnTwilioClose | src/index.js:494-499 | closing the telephony connection leaves the model's socket closed |
| Session.MediaSession.OnAiClose | src/index.js:442-444 | the model's socket is closed afterwards |
| Conversation.TextToSpeech | src/services/elevenlabs.service.js:69-111 | the wrapper answers audio exactly when the text is not blank after `trim` and the provider's request returns, and that audio is the provider's; otherwise `null`, never a throw |
| Conversation.SpokenUnlessProviderFails | src/services/elevenlabs.service.js:69-111 | a text that starts with a non-white-space character is spoken exactly when the provider's request returns |
| Conversation.TranscriptLayout | src/services/call.service.js:34-37 | a transcript has two turns per exchange: the caller's input, then the reply |
| Conversation.TranscriptAlternates | src/services/call.service.js:34-37 | every transcript alternates caller and assistant turns, starting with the caller |
| Conversation.AlternatingIsTranscriptOfPairs | src/services/call.service.js:34-37 | an alternating context is the transcript of its own exchanges |
| Conversation.AlternatingIsTranscript | src/services/call.service.js:34-37 | a context alternates exactly when it is the transcript of some sequence of exchanges |
| Conversation.ExchangeKeepsAlternating | src/services/call.service.js:34-37 | appending one exchange keeps a context alternating |
| CallManager.WellFormedShape | src/services/callManager.service.js:42-55 | a well-formed context has no system turn after the first, and every caller turn is answered by the next turn |
| CallManager.ExchangeKeepsWellFormed | src/services/callManager.service.js:84-87 | appending one exchange keeps an entry well formed |
| CallManager.CallManagerService.constructor | src/services/callManager.service.js:6-8 | the registry starts empty |
| CallManager.CallManagerService.InitiateCall | src/services/callManager.service.js:10-32 | a successful dial stores the system message alone, with `emailCollected` false, under the returned identifier; a failing dial is rethrown and stores nothing |
| CallManager.CallManagerService.GetInitialGreeting | src/services/callManager.service.js:34-65 | the entry is always overwritten with the system message and the fixed greeting; the greeting is returned as text with its audio, which is `null` exactly when the speech request failed |
| CallManager.CallManagerService.HandleConversation | src/services/callManager.service.js:67-97 | an unknown call is rejected with 'Call not found', and a thrown chat completion is rethrown; both change nothing. Otherwise the context grows by exactly [user, assistant], and the reply is returned with the speech wrapper's answer, `null` included |
| CallManager.CallManagerService.ProcessAudioInput | src/services/callManager.service.js:99-103 | the same placeholder transcript for every audio input |
| CallSessions.CallService.constructor | src/services/call.service.js:6-8 | the registry starts empty |
| CallSessions.CallService.InitiateCall | src/services/call.service.js:10-22 | a successful dial stores an empty context under the returned identifier and returns it; a failing dial stores nothing |
| CallSessions.CallService.HandleUserInput | src/services/call.service.js:24-44 | an unknown call is rejected, and a thrown chat completion is rethrown; both change nothing. Otherwise that call's context grows by [user, assistant] and the speech wrapper's answer, `null` included, is returned; other calls are untouched |

## Left out

- The CSV grammar. Parsing and stringifying are modelled as one round trip at the level of records (`Ledger.Project`), so quoting, the header line and `skip_empty_lines` are not modelled.
- Writes that fail part-way. A failing write is taken to leave the file as it was. A file that a crash leaves half-written is not modelled.
- An absent `Name` or `Phone Number` column. The orchestrator reads it as `undefined`; the model reads it as the empty string (`Calls.Field`).
- Ledger.CsvService.InitializeCsv: the writability probe on an existing file only logs, so it is not modelled.
- Matching.Lower: `toLowerCase` is modelled on ASCII letters only. Other Unicode case mappings are not modelled.
- Clocks and delays. `startTime`, `Date.now()`, the 120 s queue pacing and the 1 s, 5 s and 7 s timer delays are not modelled. Timers are pending records that any later event may fire, and the queue is a loop.
- Concurrency. Interleavings of sessions, timers and socket callbacks with one another are not modelled. Neither are concurrent ledger writers, or a context entry replaced while `handleConversation` awaits.
- The transport. The Fastify server, the `/webhook/voice` TwiML reply, WebSocket connection set-up, the base64 re-encoding of audio (taken as identity), `JSON.parse` of socket messages, and logging are not modelled.
- A failing send. Messages sent to the speech model, and frames sent to the telephony socket, are recorded as sent whatever the socket's state; the telephony socket's state is not modelled, so `OnAudioDelta` still records frames after `OnTwilioClose`. Only the relay of caller audio checks that the speech model's socket is open.
- The prompt text and the session options of `session.update`, and `createEmailCollectionTool`. These are constant data.
- Session.MediaSession.OnResponseDone: the `collect_email` arguments are taken at the tool schema's types, a string `email` and a boolean `confirmed` that stands for the truthiness of `args.confirmed`. A non-string truthy `email` (a number, say) is not modelled: both save paths would write it stringified, both `===` checks would then fail, and the direct rewrite would stay in the file while failure is reported. Arguments that are not valid JSON are `None`.
- Session.MediaSession.OnStart: a `start` event without a stream identifier is not modelled; the stream identifier is a string parameter. In the code such an event throws only when the registry has no entry for the call identifier and is not empty (the heuristic's `streamSid.includes` fails); otherwise the handler completes with an undefined stream identifier.
- Session.MediaSession.FireEndCall: the hang-up request is recorded whether or not the provider accepts it, since the code swallows that failure. The 20-call limit of the listing belongs to the provider and is not modelled.
- The provider wrappers (`twilio.service.js`, `openai.service.js`, and the rest of `elevenlabs.service.js`). Their results enter as `Outcome` parameters; of the speech wrapper only `textToSpeech`'s answer is modelled. The message list sent to the chat model is not modelled.
- The test scripts under `src/tests`. They only call the live services.
