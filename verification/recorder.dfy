/** Segment recording in `public/app.js`: selecting a speaker seals the open
    segment of the previous speaker, and when the recorder reports that it has
    stopped the sealed segment either becomes a transcription request (with a
    pending placeholder) or is dropped as too short.

    The MediaRecorder itself is not modelled. A segment is the abstract triple
    the rest of the program sees: its byte size, its speaker, and the question
    index captured when it was sealed. */
module Recorder {
  import opened Wrappers
  import opened Sessions

  /** Segments of at most this many bytes are discarded (`audioBlob.size > 5000`). */
  const MinSegmentBytes: nat := 5000

  /** A sealed audio segment. `target` is fixed at sealing time. */
  datatype Segment = Segment(bytes: nat, speaker: Option<string>, target: nat)

  /** An in-flight transcription call, tagged with where its result belongs. */
  datatype Request = Request(speaker: Option<string>, target: nat)

  /** Sealing in `stopCurrentRecordingAndProcess`: the explicit target index
      when the caller passed one, the current question otherwise. `bytes` is
      the size of the chunks captured so far. */
  function Seal(s: Session, bytes: nat, speaker: Option<string>, explicitTarget: Option<nat>): (seg: Segment)
    ensures seg.bytes == bytes && seg.speaker == speaker
    ensures explicitTarget.Some? ==> seg.target == explicitTarget.value
    ensures explicitTarget.None? ==> seg.target == s.current
  {
    Segment(bytes, speaker, if explicitTarget.Some? then explicitTarget.value else s.current)
  }

  datatype Gated = Gated(session: Session, request: Option<Request>)

  /** The recorder's `onstop` handler for a sealed segment: only a segment of
      more than 5000 bytes yields a placeholder and a transcription request,
      both addressed to the index captured at sealing, whatever question is
      current by now. */
  function Gate(s: Session, seg: Segment, timestamp: string): (g: Gated)
    ensures g.request.Some? <==> seg.bytes > MinSegmentBytes
    ensures g.request.Some? ==> g.request.value == Request(seg.speaker, seg.target)
    ensures seg.bytes <= MinSegmentBytes ==> g.session == s
    ensures seg.bytes > MinSegmentBytes && TranscriptAt(s, seg.target).Some? ==>
              TranscriptAt(g.session, seg.target)
                == Some(TranscriptAt(s, seg.target).value + [Pending(SpeakerLabel(seg.speaker), timestamp)])
    ensures OnlyTranscriptChanged(s, g.session, seg.target)
  {
    if seg.bytes > MinSegmentBytes then
      Gated(AddPending(s, seg.speaker, seg.target, timestamp), Some(Request(seg.speaker, seg.target)))
    else
      Gated(s, None)
  }

  datatype Switched = Switched(session: Session, sealed: Option<Segment>)

  /** The part of `selectSpeaker(speaker)` that runs before its `await`.
      When a segment is due (recording, the recorder running, and a speaker
      different from the selected one) the recorder is stopped and the
      segment sealed for the previous speaker and the current question; the
      selection itself waits for the recorder's `onstop`. Otherwise nothing
      is awaited and the whole call completes at once. */
  function BeginSelect(s: Session, speaker: Option<string>, bytes: nat): (w: Switched)
    ensures w.sealed.Some? <==> s.recording && s.segmentOpen && s.currentSpeaker != speaker
    ensures w.sealed.Some? ==> w.sealed.value == Segment(bytes, s.currentSpeaker, s.current)
    ensures w.sealed.Some? ==> w.session == s.(segmentOpen := false)
    ensures w.sealed.None? ==> w.session == FinishSelect(s, speaker)
  {
    if s.recording && s.segmentOpen && s.currentSpeaker != speaker
    then Switched(s.(segmentOpen := false), Some(Seal(s, bytes, s.currentSpeaker, None)))
    else Switched(FinishSelect(s, speaker), None)
  }

  /** The part of `selectSpeaker(speaker)` after its `await`: the speaker is
      assigned and, while recording, a new segment opens for them. */
  function FinishSelect(s: Session, speaker: Option<string>): (r: Session)
    ensures r.currentSpeaker == speaker
    ensures r.segmentOpen <==> s.recording || s.segmentOpen
    ensures r.(currentSpeaker := s.currentSpeaker, segmentOpen := s.segmentOpen) == s
  {
    s.(currentSpeaker := speaker, segmentOpen := s.recording || s.segmentOpen)
  }

  /** `selectSpeaker(speaker)` when no other event runs during its `await`:
      a segment is sealed only while recording, with the recorder running,
      and for a speaker different from the selected one; it belongs to the
      previously selected speaker and the current question. The new speaker
      is then selected and, while recording, a new segment opens for them. */
  function SelectSpeaker(s: Session, speaker: Option<string>, bytes: nat): (w: Switched)
    ensures w.sealed.Some? <==> s.recording && s.segmentOpen && s.currentSpeaker != speaker
    ensures w.sealed.Some? ==> w.sealed.value == Segment(bytes, s.currentSpeaker, s.current)
    ensures w.session.currentSpeaker == speaker
    ensures w.session.segmentOpen <==> s.recording || s.segmentOpen
    ensures w.session.(currentSpeaker := s.currentSpeaker, segmentOpen := s.segmentOpen) == s
  {
    var begun := BeginSelect(s, speaker, bytes);
    Switched(FinishSelect(begun.session, speaker), begun.sealed)
  }

  /** `startMainRecording()`: when microphone access is granted, recording
      starts, and a segment opens at once if a speaker is already selected;
      when it is refused, nothing changes and the call reports failure. */
  function StartRecording(s: Session, granted: bool): (r: (Session, bool))
    ensures r.1 == granted
    ensures !granted ==> r.0 == s
    ensures granted ==> r.0.recording
    ensures granted ==> (r.0.segmentOpen <==> s.segmentOpen || s.currentSpeaker.Some?)
    ensures r.0.(recording := s.recording, segmentOpen := s.segmentOpen) == s
  {
    if granted then (s.(recording := true, segmentOpen := s.segmentOpen || s.currentSpeaker.Some?), true)
    else (s, false)
  }
}
