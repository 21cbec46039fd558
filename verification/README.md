# Classroom interview recorder — a Dafny model of the session core

The application records a spoken group interview in the browser. A teacher
enters student names and planned questions, starts a session, and clicks the
name of whoever is speaking. Each click seals the audio segment of the previous
speaker. A segment that is long enough is sent for transcription, and a
"Transcribing..." placeholder shows in the transcript until the result comes
back. The teacher moves from question to question, up to six, and finally ends
the session. Progress is auto-saved to browser storage, and an unfinished
session can be recovered within a day. A separate history page lists the saved
interviews, deletes them and exports them as CSV.

This project models that core as immutable data and pure transition functions.

- `Session` holds:
  - the state (`Setup | Active | Ended | Analyzed`);
  - the questions, each with a stored transcript;
  - the current index;
  - the live transcript of the question on screen;
  - the selected speaker;
  - the recorder flags.
- A transcript entry is `Pending(speaker, timestamp)` or `Resolved(speaker, text, timestamp)`. This replaces the source's `isTranscribing` flag.
- `TranscriptAt(s, q)` picks where the transcript of question `q` lives. That is the live transcript when `q` is the current question. Otherwise it is the stored one, and there is none when the question does not exist. This is exactly the three-way branch the source repeats in `addTranscribingIndicator`, `transcribeAudio` and `removeTranscribingIndicator`.
- `OnlyTranscriptChanged(s, r, q)` is the frame those operations keep.
- An operation that starts an auto-save without awaiting it reports `saveRequested`. The save is `Storage.AutoSave` applied to its result. `autoSaveSession` contains no `await`, so the save completes before any other event runs. `endSession` awaits its save, so its result already includes the save's preparation (`Storage.AfterSave`).

The central property is `Scenarios.StaleResultLandsUnderSealedQuestion`. A
segment sealed by "next question" is gated and answered after the index has
moved, and after the auto-save the press requested. Its placeholder and its text
still land under the question it was sealed for, and the new question's
transcript stays empty. This also holds for the press that reaches the cap, whose result arrives after the session has ended.

Modules, one file each:

| module | file | models |
|---|---|---|
| `Wrappers` | wrappers.dfy | `Option`, `Result` |
| `Seqs` | seqs.dfy | `Array.prototype.filter` / `findIndex` as `Filter` / `FindFirst` |
| `Strings` | strings.dfy | ECMAScript `trim`, number-to-text, `padStart(2, '0')`, `Question n` labels, quote doubling |
| `Sessions` | sessions.dfy | the session record, transcript addressing, placeholder insert and removal |
| `Recorder` | recorder.dfy | sealing, the 5000-byte gate, `selectSpeaker` (as a whole and split at its `await`), `startMainRecording` |
| `Reconciler` | reconciler.dfy | the completion half of `transcribeAudio` |
| `Lifecycle` | lifecycle.dfy | `startInterview`, `startNextQuestion`, `endSession` |
| `Storage` | storage.dfy | auto-save upsert, discard, recovery check |
| `Metadata` | metadata.dfy | session quality, questions completed, `mm:ss` duration, recording format choice |
| `Csv` | csv.dfy | `exportToCSV`, with a reader for quoted rows as its partner |
| `History` | history.dfy | the history page's `truncateText` over UTF-16 code units, delete dialog and `exportInterviewCSV` |
| `Scenarios` | scenarios.dfy | multi-step runs: stale targets, seal counting, the Alice-and-Bob interview, the cap |

Other inputs are parameters of the model:

- clock readings and ISO timestamps;
- the new session id;
- whether the microphone is granted;
- the recorded byte size of a segment;
- the transcription reply (`Reply(success, text)` or `NetworkError`);
- whether a storage write fails;
- `MediaRecorder.isTypeSupported`.

What the code does that its own comments and names do not lead one to expect:

- Placeholders are not unique per question and speaker. `addTranscribingIndicator` pushes without looking, and removal deletes every matching placeholder at once. The model keeps the code's behaviour: `Sessions.RemoveDropsDuplicatePlaceholders`.
- When "next question" reaches index six, the session ends through `endSession()`. That call stores the live transcript of the outgoing question under the new index when that question exists. Its save then replaces that copy with the live transcript itself. So if more than six questions were planned, question seven receives question six's transcript, placeholders included: `Lifecycle.CapCopiesSixthIntoSeventh`.
- Auto-save writes records without the flat `transcription` list that the history page's CSV export reads. Exporting such a record from the history page throws before any file is produced: `History.AutoSavedRecordCannotBeExported`.
- The history export filters only on non-blank text. It therefore lists placeholders with the text `Transcribing...`: `History.HistoryExportListsPlaceholders`. The session export does exclude them.
- Both exports quote the speaker and timestamp cells without doubling their quotes. A name containing `"` produces a row that no longer reads back: `Csv.QuotedSpeakerBreaksRow`.
- Recovery offers the first recoverable record in the list, not necessarily the session saved last. An older unfinished session saved within the day is offered first: `Storage.OlderRecordIsOfferedFirst`.
- A question typed literally as `Question n` at position `n` is flagged as a placeholder, just like an empty input.
- `endSession` strips the placeholders from the current question, as its comment says it should. The session-end save it then awaits copies the live transcript back, placeholders included. So a final segment still being transcribed leaves `Transcribing...` in the ended question and in the stored record: `Lifecycle.EndSessionKeepsFinalPlaceholder`. A later reply with text removes it again, because that reply's save copies the live transcript once more. A later empty or failed reply does not, since no save follows it.
- `selectSpeaker` assigns the new speaker only after awaiting the recorder's stop. A second tap during that wait finds the recorder stopped and seals nothing. The first tap then resumes and overwrites the selection: `Scenarios.RapidTapsMisattribute`.
- The history page cuts card titles by UTF-16 code units. A title of characters outside the Basic Multilingual Plane is cut earlier than its character count suggests, and the cut can split a surrogate pair: `History.EmojiTitleIsCut`, `History.CutSplitsSurrogatePair`.

## Model

| member | source | states |
|---|---|---|
| `Strings.Trim` | public/app.js:236 | the trimmed text is empty exactly when the input is all ECMAScript whitespace; otherwise it has no whitespace at either end and is the input with leading and trailing whitespace cut |
| `Strings.EscapeQuotes` | public/app.js:931-933 | doubling quotes never shortens a text and leaves a quote-free text as it is |
| `Sessions.SpeakerLabel` | public/app.js:489 | a missing or empty speaker is labelled `No Speaker`; any other name labels itself |
| `Sessions.WithTranscriptAt` | public/app.js:498-510 | writing a question's transcript goes to the live list for the current question, to the stored list for another existing question, and nowhere for a missing question; nothing else changes |
| `Sessions.DropPending` | public/app.js:817-819 | removes exactly the speaker's placeholders, counted per entry; no kept entry is a placeholder of that speaker |
| `Sessions.Settled` | public/app.js:1776 | keeps exactly the resolved entries, counted per entry |
| `Sessions.AddPending` | public/app.js:485-510 | a placeholder for the speaker's label is appended to the transcript the target question owns (live when current, stored otherwise); a missing question leaves the session unchanged; nothing else changes |
| `Sessions.RemovePending` | public/app.js:813-828 | the target question's transcript loses its placeholders for that speaker; a missing question leaves the session unchanged; nothing else changes |
| `Sessions.DropPendingKeepsOthers` | public/app.js:817-825 | an entry that is not the speaker's placeholder survives removal in its place, before or after the rest |
| `Sessions.DropPendingAfterAdd` | public/app.js:500 | removing right after adding restores a transcript that held no placeholder of that speaker |
| `Sessions.AddThenRemovePending` | public/app.js:813-828 | the same for a session: remove undoes add on the target question |
| `Sessions.RemoveDropsDuplicatePlaceholders` | public/app.js:508 | two adds for one speaker leave two placeholders, and one removal clears both |
| `Recorder.Seal` | public/app.js:424 | a segment keeps its size and speaker and targets the explicit index when one is given, the current question otherwise |
| `Recorder.Gate` | public/app.js:430-446 | a request and a placeholder exist exactly when the segment has more than 5000 bytes, both for the speaker and index captured at sealing; a short segment leaves the session unchanged |
| `Recorder.BeginSelect` | public/app.js:394-406 | the part before the `await`: a segment is sealed exactly when recording with a running recorder and the speaker changes, for the previous speaker and the current question, and the recorder stops; with nothing to seal the whole call completes at once |
| `Recorder.FinishSelect` | public/app.js:409-417 | the part after the `await`: the speaker is assigned and, while recording, a segment opens |
| `Recorder.SelectSpeaker` | public/app.js:394-418 | with no event during its `await`: a segment is sealed exactly when recording with a running recorder and the speaker changes; it belongs to the previous speaker and the current question; the new speaker is selected and a segment opens while recording |
| `Recorder.StartRecording` | public/app.js:515-567 | on refusal nothing changes and the result is false; when granted, recording starts and a segment opens if a speaker is already selected |
| `Reconciler.Reconcile` | public/app.js:733-811 | the target transcript loses the speaker's placeholders and gains exactly the returned text when the reply carries non-blank text; no other question or field changes; an auto-save is requested exactly for delivered text with a session id; the failure message shows exactly on a thrown error |
| `Reconciler.ReconcileAddsOneResolved` | public/app.js:747-777 | a delivered reply adds one resolved entry, at the end of the target transcript |
| `Reconciler.ReconcileWithoutTextOnlyRemoves` | public/app.js:797-810 | an empty, unsuccessful or failed reply only removes placeholders |
| `Lifecycle.OnlyTranscriptChangedKeepsValid` | public/app.js:1865 | transcript-only transitions keep an active session's current question in range |
| `Lifecycle.StudentNames` | public/app.js:236 | the names are non-empty and trimmed, and there are none exactly when every input is blank |
| `Lifecycle.QuestionText` | public/app.js:285-288 | a blank input becomes `Question n`, any other the trimmed input |
| `Lifecycle.PlannedQuestion` | public/app.js:293-301 | a planned question starts with an empty transcript and is a placeholder exactly when its text is its own `Question n` label |
| `Lifecycle.StartInterview` | public/app.js:236-374 | fails exactly when every name is blank; with an id and a current question, re-labels that question, clears the live transcript and saves nothing; otherwise creates an active session at index 0 with the given id, names and planned questions, and starts the session-start save; every successful start requests the main recording, which the caller follows with `Recorder.StartRecording` once microphone access is decided |
| `Lifecycle.StartThenRecord` | public/app.js:366-374 | after a successful start and granted microphone access the session records, keeps the questions and cleared live transcript the start left, and opens a segment exactly when one was open or a speaker is already selected |
| `Lifecycle.PlaceholdersAreDistinct` | public/app.js:301 | two placeholder questions never share a text |
| `Lifecycle.SettledIgnoresPending` | public/app.js:1776 | settling ignores a placeholder appended to the transcript |
| `Lifecycle.EndFinalize` | public/app.js:1769-1788 | the session ends, recording stops, and the current question stores the live transcript without placeholders; every other question is unchanged |
| `Lifecycle.EndAndSave` | public/app.js:1769-1794 | after the end and the awaited save's preparation, the current question holds the live transcript as it is when auto-save is on and the session has an id, and the live transcript without placeholders otherwise; the session has ended, other questions and every question's text and flags are unchanged |
| `Lifecycle.EndSession` | public/app.js:1712-1794 | nothing happens unless active; otherwise the session ends and saves, and the final segment becomes a request exactly when a segment is open and has more than 5000 bytes; its placeholder joins the live transcript; after the save's preparation the current question holds that live transcript, placeholders included, when auto-save is on and the session has an id, and the live transcript without placeholders otherwise; no other question changes |
| `Lifecycle.EndSessionKeepsFinalPlaceholder` | public/app.js:1769-1794 | a long final segment's placeholder, which the settled transcript lacks, is in the ended question and in the record the session-end save writes |
| `Lifecycle.EndSessionTranscriptIsLive` | public/app.js:1755-1794 | after ending with a long final segment, the ended question holds the live transcript ending in that segment's placeholder, and the id, auto-save flag and index are kept |
| `Lifecycle.PendingIsNotSettled` | public/app.js:1776 | no placeholder survives settling |
| `Lifecycle.LastPlaceholderIsStored` | public/app.js:1380-1398 | a placeholder at the end of the current question's live transcript is in the record a successful save stores under the session id |
| `Lifecycle.EndGate` | public/app.js:1755-1767 | the final seal yields a request for the current speaker and question exactly when a segment is open and long enough, with its placeholder in the live transcript |
| `Lifecycle.EndSessionIdempotent` | public/app.js:1713-1716 | ending an ended session changes nothing and saves nothing |
| `Lifecycle.FlexibleQuestion` | public/app.js:1890-1897 | an appended question is labelled `Question n`, empty and flexible |
| `Lifecycle.NextQuestion` | public/app.js:1845-1953 | nothing happens unless active; otherwise the open segment is sealed for the outgoing question, which stores the live transcript without placeholders; the index rises by one; index six ends the session through `endSession`; below it a flexible question is appended once the planned ones run out, and the live transcript and speaker are cleared; a save is requested; the session stays valid |
| `Lifecycle.NextQuestionRespectsCap` | public/app.js:1875-1901 | flexible growth never takes the question list past six |
| `Lifecycle.Advance` | public/app.js:1845-1953 | any number of presses keeps the session valid |
| `Lifecycle.AdvanceEndsAtCap` | public/app.js:1875-1883 | from index `i`, `6 - i` presses end the session, however many questions were planned |
| `Lifecycle.AdvanceRespectsCap` | public/app.js:1885-1901 | any number of presses keeps a list of at most six questions at most six long |
| `Lifecycle.EndedStaysEnded` | public/app.js:1846-1849 | presses on a session that is not active change nothing |
| `Lifecycle.CapCopiesSixthIntoSeventh` | public/app.js:1878-1881 | with more than six planned questions, the cap leaves question seven holding question six's transcript: the settled copy, or the live transcript with its placeholders once the session-end save has prepared the session |
| `Storage.Prepare` | public/app.js:1229-1236 | the current question, if it exists, stores a copy of the live transcript, placeholders included; nothing else changes |
| `Storage.SnapshotOf` | public/app.js:1238-1252 | the record carries the session's id, state, questions and names, is marked auto-saved with the save time, and has no flat transcript |
| `Storage.IndexOfId` | public/app.js:1389 | the first position holding the id, or none when no record has it |
| `Storage.Upsert` | public/app.js:1389-1396 | the first record with the id is replaced in place, or the record is appended; no other record moves or changes |
| `Storage.UpsertThenFind` | public/app.js:1389-1403 | after the write, looking the id up finds the record written |
| `Storage.UpsertIdempotent` | public/app.js:1389-1396 | writing the same record twice is writing it once |
| `Storage.AfterSave` | public/app.js:1367-1380 | the session an auto-save leaves in memory: what `AutoSave` gives, whatever the write does; only the questions may differ from the input |
| `Storage.PrepareIdempotent` | public/app.js:1229-1236 | preparing a prepared session changes nothing |
| `Storage.AutoSaveAfterSave` | public/app.js:1367-1403 | the write run on a session already prepared by a save leaves it as it is and stores the same list as the whole save |
| `Storage.AutoSaveStoresQuestions` | public/app.js:1367-1403 | after a successful save a lookup by the session id finds a record, and it holds the prepared session's questions |
| `Storage.AutoSaveStoresCurrent` | public/app.js:1380-1398 | the stored record's current question holds the live transcript as it is, placeholders included |
| `Storage.AutoSave` | public/app.js:1367-1426 | disabled auto-save or a missing id changes nothing and reports false; otherwise the session is prepared, and the list is upserted with its snapshot exactly when the write succeeds, which is also exactly when it reports true |
| `Storage.Discard` | public/app.js:1705-1710 | removes exactly the records with the id, counted per record |
| `Storage.DiscardIdempotent` | public/app.js:1705-1710 | discarding an id twice is discarding it once |
| `Storage.DiscardUndoesFirstSave` | public/app.js:1705-1708 | discarding a session saved for the first time restores the list exactly |
| `Storage.CheckForIncomplete` | public/app.js:1604-1615 | finds the first auto-saved record in setup or active state saved less than 24 hours ago, or none when no record qualifies |
| `Storage.SavedActiveSessionIsOffered` | public/app.js:1604-1609 | after an active session saves successfully, some record is offered for recovery for the next 24 hours |
| `Storage.SavedSessionIsTheOneOffered` | public/app.js:1604-1609 | when no other record is recoverable, the record offered after a successful save of an active session is that session's |
| `Storage.OlderRecordIsOfferedFirst` | public/app.js:1604-1609 | an older recoverable record ahead in the list is offered instead of the session just saved |
| `Storage.DiscardedSessionIsNotOffered` | public/app.js:1706-1707 | after a discard, recovery never offers that id |
| `Metadata.CountWithEntries` | public/app.js:1469-1471 | counts questions with a non-empty transcript: all of them exactly when every question has entries, none exactly when none has |
| `Metadata.SessionQuality` | public/app.js:1468-1479 | good exactly when every question has entries, partial exactly when some question is empty but more than half have entries, and incomplete otherwise |
| `Metadata.QuestionsCompletedOverCountsAtCap` | public/app.js:1488 | a session ended at the cap with six questions reports seven completed |
| `Metadata.QuestionsCompleted` | public/app.js:1488 | the completed count never exceeds the number of questions, agrees with the source whenever the source's figure is in range, and is exactly the number of questions when the source's figure overshoots it, as at the cap |
| `Metadata.JsRem` | public/app.js:1160 | JavaScript's remainder: Dafny's for a non-negative dividend; for a negative one it lies between `-b` and 0 and is what remains after the quotient truncated toward zero |
| `Metadata.SessionDuration` | public/app.js:1154-1164 | `00:00` without a start time |
| `Metadata.ClockArithmetic` | public/app.js:1159-1160 | whole minutes and the whole seconds of the remainder bracket the duration to within one second, with fewer than sixty seconds |
| `Metadata.ClockRoundTrip` | public/app.js:1159-1161 | the `mm:ss` text of a non-negative duration reads back as minutes and seconds that give the duration truncated to whole seconds |
| `Metadata.SelectMimeType` | public/app.js:576-594 | the format is the first supported one in preference order, or `audio/wav` when none is supported |
| `Csv.ReadEscaped` | public/app.js:931-933 | a text with its quotes doubled, followed by a closing quote, reads back as the text |
| `Csv.RowRoundTrip` | public/app.js:926-936 | any non-empty list of cells, each quoted and escaped and joined with commas, reads back as the same list |
| `Csv.EntryRow` | public/app.js:929-935 | an exported row reads back as question number, question, speaker, text and timestamp whenever speaker and timestamp contain no quote |
| `Csv.QuotedSpeakerBreaksRow` | public/app.js:932 | a speaker named `"` yields an exportable row that does not read back |
| `Csv.QuestionRows` | public/app.js:925-936 | one row per resolved entry with non-blank text, in transcript order, each reading back as that entry |
| `Csv.BodyRowsReadBack` | public/app.js:925-936 | every data row reads back as an exportable entry of some question, numbered by that question's position from one |
| `Csv.ExportRows` | public/app.js:911-936 | fails exactly without a session id or without questions; otherwise the current question stores a copy of the live transcript, and that session is kept along with the header and that session's rows |
| `Csv.ExportToCSV` | public/app.js:911-939 | fails exactly without a session id or without questions; otherwise keeps the prepared session |
| `Csv.ExportIgnoresPending` | public/app.js:927 | dropping the placeholders from a transcript first changes no exported row |
| `History.Units` | public/history.js:250 | a character of the Basic Multilingual Plane is one code unit; any other is a high and a low surrogate that give the character back |
| `History.Utf16` | public/history.js:250 | a text has at least as many code units as characters, and exactly its characters when all lie in the Basic Multilingual Plane |
| `History.AstralUtf16` | public/history.js:250 | characters outside the Basic Multilingual Plane take two code units each, the first a high surrogate |
| `History.TruncateText` | public/history.js:249-251 | a string that fits is unchanged; a longer one becomes its first `maxLength` code units and `...`, length `maxLength + 3` |
| `History.TruncateTextIdempotent` | public/history.js:249-251 | shortening a shortened title changes nothing |
| `History.TruncateTextBounds` | public/history.js:250 | the result keeps the start of the string and is at most three code units over the limit |
| `History.CardTitle` | public/history.js:76 | a question of at most 80 code units is the title unchanged; a longer one of plane-0 characters is cut to 80 units and dots |
| `History.EmojiTitleIsCut` | public/history.js:76 | a question of 41 characters outside the Basic Multilingual Plane is cut although it has fewer than 80 characters |
| `History.CutSplitsSurrogatePair` | public/history.js:250 | a cut can leave a lone high surrogate in front of the dots |
| `History.ShowDeleteConfirmation` | public/history.js:196-199 | the modal opens holding the id |
| `History.HideDeleteModal` | public/history.js:201-204 | the modal closes and forgets the id, whatever its state |
| `History.ConfirmDelete` | public/history.js:206-218 | without a pending id nothing happens; otherwise exactly the records with that id are removed, the rest keep their count, and the modal closes |
| `History.CancelThenConfirmKeepsAll` | public/history.js:201-207 | confirming after cancelling deletes nothing |
| `History.ShowThenConfirmDeletes` | public/history.js:196-215 | opening the modal for an id and confirming is a discard of that id, and repeating it removes nothing more |
| `History.ConfirmUnknownIdKeepsAll` | public/history.js:209-210 | deleting an id no record carries keeps the list as it was |
| `History.HistoryRow` | public/history.js:171-175 | a row reads back as speaker, displayed text and timestamp whenever speaker and timestamp contain no quote |
| `History.HistoryRows` | public/history.js:169-175 | one row per entry with non-blank displayed text, in transcript order, each reading back as that entry |
| `History.FindRecord` | public/history.js:159 | the first record with the id, or none exactly when no record carries it |
| `History.ExportInterviewCSV` | public/history.js:157-176 | not found exactly when no record has the id; an error when the record has no flat transcript; otherwise the header and that transcript's rows |
| `History.HistoryExportListsPlaceholders` | public/history.js:170 | a placeholder is exported as a row whose text is `Transcribing...` |
| `History.AutoSavedRecordCannotBeExported` | public/history.js:169 | the record auto-save writes for a session cannot be exported from the history page |
| `Scenarios.SaveKeepsOtherQuestions` | public/app.js:1229-1236 | an auto-save changes at most the current question's transcript |
| `Scenarios.GateThenReplyAtTarget` | public/app.js:438-459 | a long segment gated for a question that is not current, holding a settled transcript, ends up with that transcript plus a delivered reply's text; nothing else changes |
| `Scenarios.ReplyAtTarget` | public/app.js:747-828 | a reply for a question that is not current replaces the placeholder at the end of its transcript and changes nothing else |
| `Scenarios.StaleResultLandsUnderSealedQuestion` | public/app.js:1853-1883 | a segment sealed by next question, gated after the save the press requested whether or not its write succeeds, is answered under the question it was sealed for, also when that press reached the cap and ended the session; below the cap the new question's live transcript stays empty; no other question changes |
| `Scenarios.ShortSegmentLeavesNoTrace` | public/app.js:438-446 | a speaker change that seals at most 5000 bytes makes no request and changes no transcript |
| `Scenarios.SelectAll` | public/app.js:394-418 | a run of selections keeps the recording flag and ends with the last speaker selected |
| `Scenarios.RapidTapsMisattribute` | public/app.js:394-459 | a second tap during the first tap's `await` seals nothing; two speaker changes yield one seal; the first tap's speaker ends up selected, and the next seal is attributed to them |
| `Scenarios.SealsCountSpeakerChanges` | public/app.js:396-407 | while recording, the number of sealed segments equals the number of speaker changes, all for the question on screen |
| `Scenarios.AliceAndBobStart` | public/app.js:236-320 | starting with Alice, Bob and one question gives an active session at question 0 with both names |
| `Scenarios.AliceAndBobRecord` | public/app.js:394-446 | Alice's 6000 bytes and Bob's 7000 bytes each leave a placeholder and a request for question 0, in order |
| `Scenarios.ReconcileOnScreen` | public/app.js:763-766 | a result for the question on screen replaces the speaker's placeholders in the live transcript with the text |
| `Scenarios.AliceResolves` | public/app.js:747-766 | Alice's text replaces her placeholder and leaves Bob's pending |
| `Scenarios.BobResolves` | public/app.js:747-766 | Bob's text replaces his placeholder and leaves Alice's text in place |
| `Scenarios.AliceAndBob` | public/app.js:394-811 | the whole two-speaker run ends with both texts in arrival order and no placeholder |
| `Scenarios.SixPressesEndTheInterview` | public/app.js:1875-1883 | six presses from a freshly started interview end it without passing six questions |

## Left out

- server.js is not part of this model. It holds the HTTP routes and the calls to the transcription and analysis services. Its replies appear here only as the `Reply` input.
- The MediaRecorder, the microphone stream and the audio chunks are left out. A segment is its byte size, its speaker and its target index. Which chunks a recorder replaced by an overlapping tap loses is not modelled.
- Timers, the elapsed-time display and the grace delays of `endSession` are left out.
- Replies that arrive during `endSession`'s grace delay can be modelled by calling `Reconcile` after `EndGate`, then `EndAndSave`. `EndSession` itself covers the case where none arrives.
- All rendering is left out: status messages, overlays, speaker highlighting, question inputs, the recovery prompt, and the history cards and their sort order.
- Question start and end times are left out. So are the metadata fields computed with floating point: average question duration, total recording time, transcription accuracy and the most active student.
- Analysis is left out: the per-question and session analysis calls, the `Analyzed` state, analysis history and the markdown, plain-text, DOCX and clipboard conversions. `Analyzed` appears only as a state.
- Session, question and interview ids, and the session start time, are left out; the id is a parameter of `StartInterview`.
- JSON encoding and decoding of storage are left out, as is the read-back check after an auto-save. A write either succeeds or fails through `writeFails`.
- `saveInterviewToHistory` (the manual save), `recoverSession`, `resetInterview`, `editFlexibleQuestion`, `exportToJSON`, and the history page's JSON export and clear-all are left out. They are outside the modelled core.
- A successful reply without a `text` field makes the source throw inside its `try` and take the failure path. That case is modelled as `NetworkError`.
- Recorder.SelectSpeaker: treats a tap as finished before the next one starts. `Recorder.BeginSelect` and `Recorder.FinishSelect` model the two halves, and `Scenarios.RapidTapsMisattribute` shows one interleaving. The model does not enumerate every interleaving of taps with recorder stops.
- Scenarios.SealsCountSpeakerChanges: holds for taps that each finish before the next. `Scenarios.RapidTapsMisattribute` shows two changes with one seal when they overlap.
- History.CardTitle: models the title of a record that has a flat `question` field. Records written by auto-save have none, and `truncateText` is not defined on the missing value.
- Lifecycle.StartInterview: requires at least one question input and a non-empty fresh id. The form always keeps its first question input, and generated ids are never empty. The recording start of both branches is reported as `recordingRequested`, not applied: `startMainRecording` awaits microphone access first, so the caller applies `Recorder.StartRecording` with the outcome.
- Lifecycle.NextQuestion: requires `Valid`, so an active session's current question exists. `StartInterview` and `NextQuestion` establish it, and `Lifecycle.OnlyTranscriptChangedKeepsValid` shows that the transcript operations keep it. The source's guard for a missing current question is therefore never taken.
- Csv.ExportToCSV: states when the export fails and the session it leaves behind, not the file. The contents of the file are the rows of `Csv.ExportRows` joined by newlines. Because a quoted cell may itself contain a newline, the file is not read back line by line.
- Metadata.SessionDuration: states only the no-start-time case. For a running or ended session, the text is `FormatClock` of the elapsed milliseconds, and `Metadata.ClockRoundTrip` covers non-negative durations. A negative duration (the clock set back) is formatted with JavaScript's remainder, but nothing further is proved about it.

## Findings

| source | as written | input that shows it | evidently intended | confidence | as-written member | corrected member |
|---|---|---|---|---|---|---|
| public/app.js:1488 | `questionsCompleted` is the current index plus one once the session has ended | six planned questions and six presses of "next question": the index is 6, the session ended, and seven questions are reported completed out of six | never more than the number of questions | medium; not executed | `Metadata.QuestionsCompletedOverCountsAtCap` | `Metadata.QuestionsCompleted` |
