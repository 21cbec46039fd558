/** The completion half of `transcribeAudio` in `public/app.js`: merging an
    asynchronous transcription result back into the question the segment was
    sealed for. The network call is not modelled; its outcome is an input. */
module Reconciler {
  import opened Wrappers
  import opened Strings
  import opened Sessions
  import opened Recorder

  /** What the transcription endpoint produced: a JSON reply, or a thrown
      error (network failure, unreadable body). */
  datatype Reply = Reply(success: bool, text: string) | NetworkError

  /** `result.success && result.text.trim()`: the reply carries text to keep. */
  predicate Delivers(reply: Reply) {
    reply.Reply? && reply.success && !IsBlank(reply.text)
  }

  /** The session after reconciliation, whether an auto-save was started,
      and whether the failure status message was shown. */
  datatype Reconciled = Reconciled(session: Session, saveRequested: bool, failureShown: bool)

  /** Two transcript-only changes to the same question compose. */
  lemma OnlyTranscriptChangedTrans(s: Session, s1: Session, s2: Session, q: nat)
    requires OnlyTranscriptChanged(s, s1, q) && OnlyTranscriptChanged(s1, s2, q)
    ensures OnlyTranscriptChanged(s, s2, q)
  {
    assert s1.current == s.current;
    forall i | 0 <= i < |s.questions|
      ensures s2.questions[i].(transcript := s.questions[i].transcript) == s.questions[i]
    {
      assert s1.questions[i].(transcript := s.questions[i].transcript) == s.questions[i];
      assert s2.questions[i].(transcript := s1.questions[i].transcript) == s1.questions[i];
    }
  }

  /** Reconciling the reply to `req`: the speaker's placeholders are removed
      from the transcript of the question captured in `req`, and exactly one
      resolved entry with the returned text is appended there when the reply
      delivers text. An empty reply or an error only removes placeholders.
      No other question, and no other part of the session, is touched; in
      particular the question on screen is unaffected when it is not the
      target. */
  function Reconcile(s: Session, req: Request, reply: Reply, timestamp: string): (r: Reconciled)
    ensures TranscriptAt(s, req.target).Some? ==>
              TranscriptAt(r.session, req.target)
                == Some(var kept := DropPending(TranscriptAt(s, req.target).value, SpeakerLabel(req.speaker));
                        if Delivers(reply) then kept + [Resolved(SpeakerLabel(req.speaker), reply.text, timestamp)] else kept)
    ensures TranscriptAt(s, req.target).None? ==> r.session == s
    ensures OnlyTranscriptChanged(s, r.session, req.target)
    ensures r.saveRequested <==> Delivers(reply) && HasSessionId(s)
    ensures r.failureShown <==> reply.NetworkError?
  {
    var cleared := RemovePending(s, req.speaker, req.target);
    if Delivers(reply) then
      var entry := Resolved(SpeakerLabel(req.speaker), reply.text, timestamp);
      var done := match TranscriptAt(cleared, req.target)
        case None => cleared
        case Some(t) => WithTranscriptAt(cleared, req.target, t + [entry]);
      OnlyTranscriptChangedTrans(s, cleared, done, req.target);
      Reconciled(done, HasSessionId(s), false)
    else
      Reconciled(cleared, false, reply.NetworkError?)
  }

  /** A delivered reply adds exactly one resolved entry to its target and
      never adds a placeholder. */
  lemma ReconcileAddsOneResolved(s: Session, req: Request, reply: Reply, timestamp: string)
    requires TranscriptAt(s, req.target).Some?
    requires Delivers(reply)
    ensures var before := TranscriptAt(s, req.target).value;
            var after := TranscriptAt(Reconcile(s, req, reply, timestamp).session, req.target).value;
            var e := Resolved(SpeakerLabel(req.speaker), reply.text, timestamp);
            && multiset(after)[e] == multiset(before)[e] + 1
            && |after| <= |before| + 1
            && after[|after| - 1] == e
  {
    var before := TranscriptAt(s, req.target).value;
    var who := SpeakerLabel(req.speaker);
    var e := Resolved(who, reply.text, timestamp);
    var kept := DropPending(before, who);
    assert multiset(kept)[e] == multiset(before)[e];
    assert multiset(kept + [e]) == multiset(kept) + multiset([e]);
  }

  /** A reply that delivers nothing leaves no trace beyond removing the
      speaker's placeholders: in particular, no entry is appended. */
  lemma ReconcileWithoutTextOnlyRemoves(s: Session, req: Request, reply: Reply, timestamp: string)
    requires !Delivers(reply)
    ensures Reconcile(s, req, reply, timestamp).session == RemovePending(s, req.speaker, req.target)
  {
  }
}
