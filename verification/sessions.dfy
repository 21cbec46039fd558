/** The interview session of `public/app.js` taken out of its DOM wiring: the
    `sessionData` record together with the live transcript of the question on
    screen (`transcriptionData`), the selected speaker and the recorder flags.

    A question's transcript is addressed by index. The question currently on
    screen keeps its entries in the live transcript; every other question keeps
    them in its stored `transcript`. All writes to a transcript go through
    `TranscriptAt`/`WithTranscriptAt`, which mirror the branch the source takes
    on `targetQuestionIndex === currentQuestionIndex`. */
module Sessions {
  import opened Wrappers
  import opened Seqs
  import opened Strings

  /** The label written for a `null` speaker. */
  const NoSpeaker: string := "No Speaker"
  /** The text a pending entry carries while its transcription is in flight. */
  const TranscribingText: string := "Transcribing..."
  /** The hard cap on the number of questions reached by advancing. */
  const MaxQuestions: nat := 6

  /** A transcript row: a placeholder for an in-flight transcription, or the
      text the transcription service returned. */
  datatype Entry =
    | Pending(speaker: string, timestamp: string)
    | Resolved(speaker: string, text: string, timestamp: string)
  {
    /** The `text` field of the source's entry object. */
    function Shown(): string {
      if Pending? then TranscribingText else text
    }
  }

  datatype Question = Question(text: string, transcript: seq<Entry>, isPlaceholder: bool, isFlexible: bool)

  datatype State = Setup | Active | Ended | Analyzed

  /** `recording` is the source's `isRecording` (a microphone stream is held);
      `segmentOpen` says the per-speaker recorder is in state `recording`. */
  datatype Session = Session(
    sessionId: Option<string>,
    state: State,
    questions: seq<Question>,
    current: nat,
    students: seq<string>,
    live: seq<Entry>,
    currentSpeaker: Option<string>,
    autoSaveEnabled: bool,
    recording: bool,
    segmentOpen: bool)

  /** The state the application starts in, and returns to on reset. */
  function Initial(): (s: Session)
    ensures s.state == Setup && s.sessionId == None && s.questions == []
  {
    Session(None, Setup, [], 0, [], [], None, true, false, false)
  }

  /** `if (this.sessionData.sessionId)`: a present, non-empty id. */
  predicate HasSessionId(s: Session) {
    s.sessionId.Some? && s.sessionId.value != ""
  }

  /** `speaker || 'No Speaker'`: null and the empty string are both falsy. */
  function SpeakerLabel(speaker: Option<string>): (l: string)
    ensures l != ""
    ensures speaker.None? || speaker.value == "" ==> l == NoSpeaker
    ensures speaker.Some? && speaker.value != "" ==> l == speaker.value
  {
    if speaker.None? || speaker.value == "" then NoSpeaker else speaker.value
  }

  /** The transcript question `q` currently owns, if it has one: the live
      transcript for the question on screen, the stored one otherwise. */
  function TranscriptAt(s: Session, q: nat): Option<seq<Entry>> {
    if q == s.current then Some(s.live)
    else if q < |s.questions| then Some(s.questions[q].transcript)
    else None
  }

  /** Replaces the transcript of question `q` where `TranscriptAt` finds it;
      a write to a question that does not exist changes nothing. */
  function WithTranscriptAt(s: Session, q: nat, t: seq<Entry>): (r: Session)
    ensures TranscriptAt(s, q).Some? ==> TranscriptAt(r, q) == Some(t)
    ensures TranscriptAt(s, q).None? ==> r == s
    ensures OnlyTranscriptChanged(s, r, q)
  {
    if q == s.current then s.(live := t)
    else if q < |s.questions| then s.(questions := s.questions[q := s.questions[q].(transcript := t)])
    else s
  }

  /** `r` differs from `s` at most in the transcript owned by question `q`:
      every other question's transcript, every question's text and flags,
      and every other field of the session are as they were. */
  ghost predicate OnlyTranscriptChanged(s: Session, r: Session, q: nat) {
    && r.(live := s.live, questions := s.questions) == s
    && |r.questions| == |s.questions|
    && (forall i :: 0 <= i < |s.questions| ==>
          r.questions[i].(transcript := s.questions[i].transcript) == s.questions[i])
    && (forall i :: 0 <= i < |s.questions| && (i != q || i == s.current) ==>
          r.questions[i].transcript == s.questions[i].transcript)
    && (q != s.current ==> r.live == s.live)
  }

  /** Whether an entry is a pending placeholder for the given speaker label:
      `entry.isTranscribing && entry.speaker === who`. */
  predicate IsPendingFor(e: Entry, who: string) {
    e.Pending? && e.speaker == who
  }

  /** A transcript with every pending placeholder for `who` removed. */
  function DropPending(t: seq<Entry>, who: string): (r: seq<Entry>)
    ensures forall i :: 0 <= i < |r| ==> !IsPendingFor(r[i], who)
    ensures forall e :: multiset(r)[e] == if IsPendingFor(e, who) then 0 else multiset(t)[e]
  {
    Filter(t, e => !IsPendingFor(e, who))
  }

  /** A transcript with every pending placeholder removed (`!entry.isTranscribing`). */
  function Settled(t: seq<Entry>): (r: seq<Entry>)
    ensures forall i :: 0 <= i < |r| ==> r[i].Resolved?
    ensures forall e :: multiset(r)[e] == if e.Pending? then 0 else multiset(t)[e]
  {
    Filter(t, (e: Entry) => e.Resolved?)
  }

  /** `addTranscribingIndicator(speaker, q)`: appends a pending entry for the
      speaker to the transcript question `q` owns; nothing changes when no
      question exists at `q`. */
  function AddPending(s: Session, speaker: Option<string>, q: nat, timestamp: string): (r: Session)
    ensures TranscriptAt(s, q).Some? ==>
              TranscriptAt(r, q) == Some(TranscriptAt(s, q).value + [Pending(SpeakerLabel(speaker), timestamp)])
    ensures TranscriptAt(s, q).None? ==> r == s
    ensures q == s.current ==> r.live == s.live + [Pending(SpeakerLabel(speaker), timestamp)]
    ensures OnlyTranscriptChanged(s, r, q)
  {
    match TranscriptAt(s, q)
    case None => s
    case Some(t) => WithTranscriptAt(s, q, t + [Pending(SpeakerLabel(speaker), timestamp)])
  }

  /** `removeTranscribingIndicator(speaker, q)`: removes every pending entry
      for the speaker from the transcript question `q` owns. */
  function RemovePending(s: Session, speaker: Option<string>, q: nat): (r: Session)
    ensures TranscriptAt(s, q).Some? ==>
              TranscriptAt(r, q) == Some(DropPending(TranscriptAt(s, q).value, SpeakerLabel(speaker)))
    ensures TranscriptAt(s, q).None? ==> r == s
    ensures OnlyTranscriptChanged(s, r, q)
  {
    match TranscriptAt(s, q)
    case None => s
    case Some(t) => WithTranscriptAt(s, q, DropPending(t, SpeakerLabel(speaker)))
  }

  /** Removal keeps every entry that is not a pending placeholder of that
      speaker, in its original order: resolved entries and other speakers'
      placeholders are untouched. */
  lemma {:induction false} DropPendingKeepsOthers(t: seq<Entry>, who: string, e: Entry)
    requires !IsPendingFor(e, who)
    ensures DropPending(t + [e], who) == DropPending(t, who) + [e]
    ensures DropPending([e] + t, who) == [e] + DropPending(t, who)
  {
    FilterAppend(t, [e], x => !IsPendingFor(x, who));
    FilterAppend([e], t, x => !IsPendingFor(x, who));
  }

  /** Removing a placeholder right after adding it restores the transcript,
      provided it held no other placeholder of that speaker. */
  lemma DropPendingAfterAdd(t: seq<Entry>, who: string, timestamp: string)
    requires forall i :: 0 <= i < |t| ==> !IsPendingFor(t[i], who)
    ensures DropPending(t + [Pending(who, timestamp)], who) == t
  {
    FilterAppend(t, [Pending(who, timestamp)], e => !IsPendingFor(e, who));
    FilterKeepsAll(t, e => !IsPendingFor(e, who));
  }

  /** The same, for a session: remove undoes add on the target transcript. */
  lemma AddThenRemovePending(s: Session, speaker: Option<string>, q: nat, timestamp: string)
    requires TranscriptAt(s, q).Some?
    requires forall i :: 0 <= i < |TranscriptAt(s, q).value| ==>
               !IsPendingFor(TranscriptAt(s, q).value[i], SpeakerLabel(speaker))
    ensures TranscriptAt(RemovePending(AddPending(s, speaker, q, timestamp), speaker, q), q) == TranscriptAt(s, q)
  {
    var t := TranscriptAt(s, q).value;
    var s1 := AddPending(s, speaker, q, timestamp);
    assert TranscriptAt(s1, q) == Some(t + [Pending(SpeakerLabel(speaker), timestamp)]);
    DropPendingAfterAdd(t, SpeakerLabel(speaker), timestamp);
  }

  /** Removal takes out ALL of a speaker's placeholders at once: the source
      does not keep them unique, so two in-flight segments of one speaker for
      one question share their fate. */
  lemma RemoveDropsDuplicatePlaceholders(s: Session, speaker: Option<string>, q: nat, t1: string, t2: string)
    requires TranscriptAt(s, q) == Some([])
    ensures var s2 := AddPending(AddPending(s, speaker, q, t1), speaker, q, t2);
            && TranscriptAt(s2, q) == Some([Pending(SpeakerLabel(speaker), t1), Pending(SpeakerLabel(speaker), t2)])
            && TranscriptAt(RemovePending(s2, speaker, q), q) == Some([])
  {
    var who := SpeakerLabel(speaker);
    var s2 := AddPending(AddPending(s, speaker, q, t1), speaker, q, t2);
    assert [] + [Pending(who, t1)] + [Pending(who, t2)] == [Pending(who, t1), Pending(who, t2)];
    var two := [Pending(who, t1), Pending(who, t2)];
    assert DropPending(two, who) == [] by {
      assert two[1..] == [Pending(who, t2)];
      assert [Pending(who, t2)][1..] == [];
      assert DropPending([Pending(who, t2)], who) == [];
    }
  }
}
