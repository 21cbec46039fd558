/** The session lifecycle of `public/app.js`: `startInterview`,
    `startNextQuestion` and `endSession`, as transitions on `Session`.
    Timers, grace delays, the loading overlay and all rendering are left out.
    A transition that starts an auto-save without awaiting it reports it with
    `saveRequested`; the save is `Storage.AutoSave` applied to the result.
    `endSession` awaits its save, so its result is the session after the
    save's preparation (`Storage.AfterSave`), and `Storage.AutoSaveAfterSave`
    shows that the write then stores the same list. */
module Lifecycle {
  import opened Wrappers
  import opened Seqs
  import opened Strings
  import opened Sessions
  import opened Recorder
  import opened Storage

  /** While a session is active its current question exists and lies below
      the cap of six. */
  predicate Valid(s: Session) {
    s.state == Active ==> s.current < |s.questions| && s.current < MaxQuestions
  }

  /** Validity depends only on the state, the index and the number of
      questions, so every transition that only touches one transcript (a
      placeholder added or removed, a result reconciled) keeps it. */
  lemma OnlyTranscriptChangedKeepsValid(s: Session, r: Session, q: nat)
    requires Valid(s) && OnlyTranscriptChanged(s, r, q)
    ensures Valid(r)
  {
    assert r.state == s.state && r.current == s.current;
  }

  // ---------------------------------------------------------------- start

  datatype StartError = NoStudentNames

  /** The session after `startInterview()`, and whether it started the
      session-start auto-save. */
  datatype Started = Started(session: Session, saveRequested: bool, recordingRequested: bool)

  /** `inputs.map(v => v.trim()).filter(name => name)`. */
  function StudentNames(inputs: seq<string>): (names: seq<string>)
    ensures |names| <= |inputs|
    ensures forall i :: 0 <= i < |names| ==>
              names[i] != "" && !IsWhitespace(names[i][0]) && !IsWhitespace(names[i][|names[i]| - 1])
    ensures |names| == 0 <==> forall i :: 0 <= i < |inputs| ==> IsBlank(inputs[i])
  {
    if |inputs| == 0 then []
    else
      var t := Trim(inputs[0]);
      (if t != "" then [t] else []) + StudentNames(inputs[1..])
  }

  /** The text a question input yields: the trimmed input, or `Question n`
      for a blank one. */
  function QuestionText(input: string, n: nat): (t: string)
    ensures IsBlank(input) ==> t == QuestionLabel(n)
    ensures !IsBlank(input) ==> t == Trim(input) && t != ""
  {
    var trimmed := Trim(input);
    if trimmed == "" then QuestionLabel(n) else trimmed
  }

  /** The planned question built from input `i` when a session is created. */
  function PlannedQuestion(input: string, i: nat): (q: Question)
    ensures q.text == QuestionText(input, i + 1)
    ensures q.transcript == [] && !q.isFlexible
    ensures q.isPlaceholder <==> q.text == QuestionLabel(i + 1)
    ensures IsBlank(input) ==> q.isPlaceholder
  {
    var text := QuestionText(input, i + 1);
    Question(text, [], text == QuestionLabel(i + 1), false)
  }

  /** `startInterview()`. Without a non-blank participant name it reports an
      error and changes nothing. With an id and an existing current question
      it re-labels that question and clears the live transcript, and saves
      nothing. Otherwise it creates a new active session at question 0 from
      the question inputs and starts the session-start auto-save. Both
      branches then start the main recording, which first awaits microphone
      access: `recordingRequested` reports it, and the caller follows with
      `Recorder.StartRecording` and the outcome of that request.
      `freshId` stands for `generateSessionId()`. */
  function StartInterview(s: Session, studentInputs: seq<string>, questionInputs: seq<string>, freshId: string)
    : (r: Result<Started, StartError>)
    requires |questionInputs| >= 1
    requires freshId != ""
    ensures r.Failure? <==> forall i :: 0 <= i < |studentInputs| ==> IsBlank(studentInputs[i])
    ensures r.Success? ==> (r.value.saveRequested <==> !(HasSessionId(s) && s.current < |s.questions|))
    ensures r.Success? ==> r.value.recordingRequested
    ensures r.Success? && HasSessionId(s) && s.current < |s.questions| ==>
              && |r.value.session.questions| == |s.questions|
              && r.value.session.questions[s.current].text == QuestionText(questionInputs[0], s.current + 1)
              && r.value.session.live == []
              && r.value.session.(questions := s.questions, live := s.live) == s
              && forall i :: 0 <= i < |s.questions| && i != s.current ==> r.value.session.questions[i] == s.questions[i]
    ensures r.Success? && HasSessionId(s) && s.current < |s.questions| ==>
              var q := r.value.session.questions[s.current];
              q.isPlaceholder <==> q.text == QuestionLabel(s.current + 1)
    ensures r.Success? && !(HasSessionId(s) && s.current < |s.questions|) ==>
              && r.value.session.state == Active
              && r.value.session.sessionId == Some(freshId)
              && r.value.session.current == 0
              && r.value.session.students == StudentNames(studentInputs)
              && r.value.session.live == []
              && |r.value.session.questions| == |questionInputs|
              && (forall i :: 0 <= i < |questionInputs| ==>
                    r.value.session.questions[i] == PlannedQuestion(questionInputs[i], i))
              && Valid(r.value.session)
  {
    var names := StudentNames(studentInputs);
    if |names| == 0 then Failure(NoStudentNames)
    else if HasSessionId(s) && s.current < |s.questions| then
      var text := QuestionText(questionInputs[0], s.current + 1);
      var q := s.questions[s.current].(text := text, isPlaceholder := text == QuestionLabel(s.current + 1));
      Success(Started(s.(questions := s.questions[s.current := q], live := []), false, true))
    else
      var planned := seq(|questionInputs|, i requires 0 <= i < |questionInputs| => PlannedQuestion(questionInputs[i], i));
      Success(Started(Session(Some(freshId), Active, planned, 0, names, [], s.currentSpeaker, true, s.recording, s.segmentOpen), true, true))
  }

  /** Two planned questions flagged as placeholders never share a text: the
      flag pins each to its own `Question n` label. */
  lemma PlaceholdersAreDistinct(inputs: seq<string>, i: nat, j: nat)
    requires i < |inputs| && j < |inputs| && i != j
    requires PlannedQuestion(inputs[i], i).isPlaceholder && PlannedQuestion(inputs[j], j).isPlaceholder
    ensures PlannedQuestion(inputs[i], i).text != PlannedQuestion(inputs[j], j).text
  {
    if PlannedQuestion(inputs[i], i).text == PlannedQuestion(inputs[j], j).text {
      QuestionLabelInjective(i + 1, j + 1);
    }
  }

  /** A successful start requests the recording; once microphone access is
      granted, the started session records, its questions and cleared live
      transcript stay as the start left them, and a segment opens exactly
      when one was open or a speaker is already selected. */
  lemma StartThenRecord(s: Session, studentInputs: seq<string>, questionInputs: seq<string>, freshId: string)
    requires |questionInputs| >= 1
    requires freshId != ""
    requires exists i :: 0 <= i < |studentInputs| && !IsBlank(studentInputs[i])
    ensures var r := StartInterview(s, studentInputs, questionInputs, freshId);
            && r.Success? && r.value.recordingRequested
            && var rec := StartRecording(r.value.session, true).0;
               && rec.recording
               && rec.questions == r.value.session.questions
               && rec.live == []
               && (rec.segmentOpen <==> r.value.session.segmentOpen || r.value.session.currentSpeaker.Some?)
  {
  }

  // ---------------------------------------------------------------- end

  /** Settling a transcript ignores a placeholder appended to it. */
  lemma SettledIgnoresPending(t: seq<Entry>, e: Entry)
    requires e.Pending?
    ensures Settled(t + [e]) == Settled(t)
  {
    FilterAppend(t, [e], (x: Entry) => x.Resolved?);
  }

  /** The part of `endSession()` after the final segment has been processed
      and the grace delay has elapsed: the session ends, recording stops, and
      the current question, if it exists, stores the live transcript without
      its placeholders. The live transcript itself is not cleared. */
  function EndFinalize(s: Session): (r: Session)
    ensures r.state == Ended && !r.recording && !r.segmentOpen
    ensures |r.questions| == |s.questions|
    ensures s.current < |s.questions| ==> r.questions[s.current].transcript == Settled(s.live)
    ensures forall i :: 0 <= i < |s.questions| ==> r.questions[i].(transcript := s.questions[i].transcript) == s.questions[i]
    ensures forall i :: 0 <= i < |s.questions| && i != s.current ==> r.questions[i] == s.questions[i]
    ensures r.(state := s.state, recording := s.recording, segmentOpen := s.segmentOpen, questions := s.questions) == s
  {
    var questions :=
      if s.current < |s.questions|
      then s.questions[s.current := s.questions[s.current].(transcript := Settled(s.live))]
      else s.questions;
    s.(state := Ended, recording := false, segmentOpen := false, questions := questions)
  }

  /** The end of `endSession()` after the final gate: the session ends, and
      then the awaited session-end save runs its preparation. The current
      question, if it exists, finally holds the live transcript as it is
      when auto-save is on and the session has an id, and the live
      transcript without placeholders otherwise. */
  function EndAndSave(x: Session): (r: Session)
    ensures r.state == Ended && !r.recording && !r.segmentOpen
    ensures r.(state := x.state, recording := x.recording, segmentOpen := x.segmentOpen, questions := x.questions) == x
    ensures |r.questions| == |x.questions|
    ensures x.current < |x.questions| ==>
              r.questions[x.current].transcript
                == if x.autoSaveEnabled && HasSessionId(x) then x.live else Settled(x.live)
    ensures forall i :: 0 <= i < |x.questions| && i != x.current ==> r.questions[i] == x.questions[i]
    ensures forall i :: 0 <= i < |x.questions| ==> r.questions[i].(transcript := x.questions[i].transcript) == x.questions[i]
  {
    AfterSave(EndFinalize(x))
  }

  datatype Ending = Ending(session: Session, request: Option<Request>, saveRequested: bool)

  /** `endSession()`. It does nothing unless the session is active. Otherwise
      it seals the open segment for the current speaker and question and
      waits for its gate, so a long enough final segment becomes a
      transcription request; then the session ends and the current question
      stores its live transcript with every placeholder stripped. Last comes
      the awaited session-end auto-save, whose preparation copies the live
      transcript back into the current question, placeholders included, so
      the final segment's placeholder is stored after all. Replies that
      arrive during the grace delay are applied by `Reconcile` between
      `EndGate` and the end; this function takes the case where none
      arrives. */
  function EndSession(s: Session, bytes: nat, timestamp: string): (r: Ending)
    ensures s.state != Active ==> r == Ending(s, None, false)
    ensures s.state == Active ==> r.session.state == Ended && r.saveRequested
    ensures s.state == Active ==> !r.session.recording && !r.session.segmentOpen
    ensures |r.session.questions| == |s.questions|
    ensures s.state == Active ==>
              (r.request.Some? <==> s.segmentOpen && bytes > MinSegmentBytes)
    ensures r.request.Some? ==> r.request.value == Request(s.currentSpeaker, s.current)
    ensures s.state == Active ==>
              r.session.live == s.live + if r.request.Some? then [Pending(SpeakerLabel(s.currentSpeaker), timestamp)] else []
    ensures s.state == Active && s.current < |s.questions| ==>
              r.session.questions[s.current].transcript
                == if s.autoSaveEnabled && HasSessionId(s) then r.session.live else Settled(s.live)
    ensures s.state == Active ==>
              forall i :: 0 <= i < |s.questions| && i != s.current ==> r.session.questions[i] == s.questions[i]
    ensures s.state == Active ==>
              r.session.(state := s.state, recording := s.recording, segmentOpen := s.segmentOpen,
                         questions := s.questions, live := s.live) == s
  {
    if s.state != Active then Ending(s, None, false)
    else
      var g := EndGate(s, bytes, timestamp);
      var e := EndAndSave(g.session);
      if g.request.Some? then
        SettledIgnoresPending(s.live, Pending(SpeakerLabel(s.currentSpeaker), timestamp));
        Ending(e, g.request, true)
      else
        Ending(e, None, true)
  }

  /** As written, ending a session whose final segment is still being
      transcribed leaves that segment's placeholder in the ended question:
      `endSession()` strips it, and the session-end save puts it back, both
      in the session and in the record it writes. */
  lemma EndSessionKeepsFinalPlaceholder(s: Session, bytes: nat, timestamp: string, store: seq<Record>, now: int)
    requires s.state == Active && s.current < |s.questions| && s.segmentOpen && bytes > MinSegmentBytes
    requires s.autoSaveEnabled && HasSessionId(s)
    ensures var r := EndSession(s, bytes, timestamp).session;
            var p := Pending(SpeakerLabel(s.currentSpeaker), timestamp);
            && p in r.questions[s.current].transcript
            && p !in Settled(s.live)
            && var saved := AutoSave(r, store, now, false).store;
               var k := IndexOfId(saved, s.sessionId.value);
               && k.Some?
               && s.current < |saved[k.value].questions|
               && p in saved[k.value].questions[s.current].transcript
  {
    var r := EndSession(s, bytes, timestamp).session;
    var p := Pending(SpeakerLabel(s.currentSpeaker), timestamp);
    EndSessionTranscriptIsLive(s, bytes, timestamp);
    PendingIsNotSettled(s.live, p);
    LastPlaceholderIsStored(r, s.live, p, store, now);
  }

  /** The stored-record part: when the current question holds a live
      transcript that ends with a placeholder, a successful save stores that
      placeholder under the session's id. */
  lemma LastPlaceholderIsStored(r: Session, before: seq<Entry>, p: Entry, store: seq<Record>, now: int)
    requires r.autoSaveEnabled && HasSessionId(r) && r.current < |r.questions|
    requires r.live == before + [p] && r.questions[r.current].transcript == r.live
    ensures p in r.questions[r.current].transcript
    ensures var saved := AutoSave(r, store, now, false).store;
            var k := IndexOfId(saved, r.sessionId.value);
            && k.Some?
            && r.current < |saved[k.value].questions|
            && p in saved[k.value].questions[r.current].transcript
  {
    assert r.live[|before|] == p;
    AutoSaveStoresCurrent(r, store, now);
  }

  /** The session part: the ended question holds the live transcript, which
      ends with the final segment's placeholder, and the session keeps its
      id, its auto-save flag and its index. */
  lemma EndSessionTranscriptIsLive(s: Session, bytes: nat, timestamp: string)
    requires s.state == Active && s.current < |s.questions| && s.segmentOpen && bytes > MinSegmentBytes
    requires s.autoSaveEnabled && HasSessionId(s)
    ensures var r := EndSession(s, bytes, timestamp).session;
            && r.live == s.live + [Pending(SpeakerLabel(s.currentSpeaker), timestamp)]
            && r.questions[s.current].transcript == r.live
            && r.autoSaveEnabled && r.sessionId == s.sessionId && r.current == s.current
            && r.current < |r.questions|
  {
  }

  /** A placeholder never survives settling. */
  lemma PendingIsNotSettled(t: seq<Entry>, p: Entry)
    requires p.Pending?
    ensures p !in Settled(t)
  {
    assert multiset(Settled(t))[p] == 0;
  }

  /** The first, awaited part of `endSession()`: seal the open segment for
      the current speaker and question and run its gate. */
  function EndGate(s: Session, bytes: nat, timestamp: string): (g: Gated)
    ensures g.request.Some? <==> s.segmentOpen && bytes > MinSegmentBytes
    ensures g.request.Some? ==> g.request.value == Request(s.currentSpeaker, s.current)
    ensures g.request.None? ==> g.session == s.(segmentOpen := false)
    ensures g.request.Some? ==> g.session == s.(segmentOpen := false, live := s.live + [Pending(SpeakerLabel(s.currentSpeaker), timestamp)])
  {
    var closed := s.(segmentOpen := false);
    if s.segmentOpen then Gate(closed, Seal(s, bytes, s.currentSpeaker, None), timestamp)
    else Gated(closed, None)
  }

  /** Ending is idempotent: ending an ended session changes nothing and
      saves nothing. */
  lemma EndSessionIdempotent(s: Session, b1: nat, b2: nat, t1: string, t2: string)
    ensures var e := EndSession(s, b1, t1).session;
            EndSession(e, b2, t2) == Ending(e, None, false)
  {
  }

  // ---------------------------------------------------------------- next question

  datatype Advanced = Advanced(session: Session, sealed: Option<Segment>, saveRequested: bool)

  /** The question `startNextQuestion()` appends once the planned ones are used up. */
  function FlexibleQuestion(n: nat): (q: Question)
    ensures q.text == QuestionLabel(n) && q.transcript == [] && q.isFlexible && !q.isPlaceholder
  {
    Question(QuestionLabel(n), [], false, true)
  }

  /** `startNextQuestion()`. It does nothing unless the session is active.
      Otherwise the open segment is sealed for the outgoing question (its gate
      runs later, after the index has moved); the outgoing question stores
      the live transcript without placeholders; the index advances by one.
      Reaching index six ends the session through `endSession()` instead of
      showing a seventh question; the recorder is already stopped, so that
      call seals nothing, and its awaited save has run its preparation. Below that, a flexible `Question n` is appended when the
      planned questions are used up, and the live transcript and the speaker
      selection are cleared. */
  function NextQuestion(s: Session, bytes: nat): (r: Advanced)
    requires Valid(s)
    ensures s.state != Active ==> r == Advanced(s, None, false)
    ensures s.state == Active ==> r.saveRequested
    ensures s.state == Active ==> (r.sealed.Some? <==> s.segmentOpen)
    ensures r.sealed.Some? ==> r.sealed.value == Segment(bytes, s.currentSpeaker, s.current)
    ensures s.state == Active ==> r.session.current == s.current + 1
    ensures |r.session.questions| >= |s.questions|
    ensures s.state == Active ==> r.session.questions[s.current].transcript == Settled(s.live)
    ensures s.state == Active ==> !r.session.segmentOpen
    ensures s.state == Active && s.current + 1 >= MaxQuestions ==> r.session.state == Ended
    ensures s.state == Active && s.current + 1 < MaxQuestions ==>
              && r.session.state == Active
              && r.session.live == []
              && r.session.currentSpeaker == None
    ensures s.state == Active && s.current + 1 < MaxQuestions && s.current + 1 == |s.questions| ==>
              |r.session.questions| == |s.questions| + 1
              && r.session.questions[s.current + 1] == FlexibleQuestion(s.current + 2)
    ensures !(s.state == Active && s.current + 1 < MaxQuestions && s.current + 1 == |s.questions|) ==>
              |r.session.questions| == |s.questions|
    ensures forall i :: 0 <= i < |s.questions| && i != s.current && (i != s.current + 1 || s.current + 1 < MaxQuestions) ==>
              r.session.questions[i] == s.questions[i]
    ensures forall i :: 0 <= i < |s.questions| ==> r.session.questions[i].text == s.questions[i].text
    ensures Valid(r.session)
  {
    if s.state != Active then Advanced(s, None, false)
    else
      var sealed := if s.segmentOpen then Some(Seal(s, bytes, s.currentSpeaker, Some(s.current))) else None;
      var outgoing := s.questions[s.current].(transcript := Settled(s.live));
      var moved := s.(segmentOpen := false, questions := s.questions[s.current := outgoing], current := s.current + 1);
      if moved.current >= MaxQuestions then
        Advanced(EndAndSave(moved), sealed, true)
      else
        var questions :=
          if moved.current >= |moved.questions| then moved.questions + [FlexibleQuestion(moved.current + 1)]
          else moved.questions;
        Advanced(moved.(questions := questions, live := [], currentSpeaker := None), sealed, true)
  }

  /** Flexible growth never takes the question list past six. */
  lemma NextQuestionRespectsCap(s: Session, bytes: nat)
    requires Valid(s) && |s.questions| <= MaxQuestions
    ensures |NextQuestion(s, bytes).session.questions| <= MaxQuestions
  {
  }

  /** `n` presses of "next question", with `bytes[k]` the size of the open
      segment at the k-th press. */
  function Advance(s: Session, bytes: seq<nat>): (r: Session)
    requires Valid(s)
    ensures Valid(r)
    decreases |bytes|
  {
    if |bytes| == 0 then s else Advance(NextQuestion(s, bytes[0]).session, bytes[1..])
  }

  /** From any active question, enough presses of "next question" end the
      session: with index `i`, at most `6 - i` of them, however many
      questions were planned. */
  lemma {:induction false} AdvanceEndsAtCap(s: Session, bytes: seq<nat>)
    requires Valid(s) && s.state == Active
    requires s.current + |bytes| >= MaxQuestions
    ensures Advance(s, bytes).state == Ended
    decreases |bytes|
  {
    var n := NextQuestion(s, bytes[0]).session;
    if n.state == Active {
      AdvanceEndsAtCap(n, bytes[1..]);
    } else {
      EndedStaysEnded(n, bytes[1..]);
    }
  }

  /** Presses of "next question" never take a list of at most six
      questions past six. */
  lemma {:induction false} AdvanceRespectsCap(s: Session, bytes: seq<nat>)
    requires Valid(s) && |s.questions| <= MaxQuestions
    ensures |Advance(s, bytes).questions| <= MaxQuestions
    decreases |bytes|
  {
    if |bytes| > 0 {
      NextQuestionRespectsCap(s, bytes[0]);
      AdvanceRespectsCap(NextQuestion(s, bytes[0]).session, bytes[1..]);
    }
  }

  /** A session that is not active is left as it is by further presses. */
  lemma {:induction false} EndedStaysEnded(s: Session, bytes: seq<nat>)
    requires Valid(s) && s.state != Active
    ensures Advance(s, bytes) == s
    decreases |bytes|
  {
    if |bytes| > 0 {
      EndedStaysEnded(NextQuestion(s, bytes[0]).session, bytes[1..]);
    }
  }

  /** As written, the cap ends the session through `endSession()` while the
      live transcript still holds the outgoing question's entries. When more
      than six questions were planned, the seventh question is the one
      `endSession()` finds at the new index: it receives the sixth question's
      settled transcript, and the session-end save then replaces that with
      the live transcript itself, placeholders included. */
  lemma CapCopiesSixthIntoSeventh(s: Session, bytes: nat)
    requires Valid(s) && s.state == Active && s.current == MaxQuestions - 1
    requires |s.questions| > MaxQuestions
    ensures var r := NextQuestion(s, bytes).session;
            && r.questions[MaxQuestions - 1].transcript == Settled(s.live)
            && r.questions[MaxQuestions].transcript
                 == if s.autoSaveEnabled && HasSessionId(s) then s.live else Settled(s.live)
  {
  }
}
