/** Properties of whole runs of the session: a transcription result landing
    under the question its segment was sealed for, seals counted against
    speaker changes, short segments leaving no trace, and a two-speaker
    interview from start to finish. */
module Scenarios {
  import opened Wrappers
  import opened Seqs
  import opened Strings
  import opened Sessions
  import opened Recorder
  import opened Reconciler
  import opened Lifecycle
  import opened Storage

  /** A settled transcript followed by one placeholder loses exactly that
      placeholder when the placeholder's speaker is cleared. */
  lemma DropPendingOfSettled(t: seq<Entry>, who: string, timestamp: string)
    ensures DropPending(Settled(t) + [Pending(who, timestamp)], who) == Settled(t)
  {
    var settled := Settled(t);
    assert forall i :: 0 <= i < |settled| ==> !IsPendingFor(settled[i], who);
    DropPendingAfterAdd(settled, who, timestamp);
  }

  /** The stale-target property. A segment sealed by "next question" while
      question `i` is current is gated after the index has moved to `i + 1`
      and after the auto-save the press requested, which completes first
      whether or not its write succeeds. The placeholder and the result both
      land under question `i`, and no other question changes. Below the cap
      the new question's live transcript stays empty. At the cap the session
      has already ended when the gate runs, and the result still lands under
      question `i`. A reply without text leaves question `i` exactly as it
      was stored. */
  lemma StaleResultLandsUnderSealedQuestion(s: Session, bytes: nat, store: seq<Record>, now: int, writeFails: bool,
                                            ts1: string, reply: Reply, ts2: string)
    requires Valid(s) && s.state == Active && s.segmentOpen
    requires bytes > MinSegmentBytes
    ensures var a := NextQuestion(s, bytes);
            && a.sealed.Some? && a.saveRequested
            && var b := AutoSave(a.session, store, now, writeFails).session;
               && var g := Gate(b, a.sealed.value, ts1);
                  && g.request == Some(Request(s.currentSpeaker, s.current))
                  && var r := Reconcile(g.session, g.request.value, reply, ts2).session;
                     && |r.questions| == |a.session.questions|
                     && r.questions[s.current].transcript
                          == Settled(s.live) + (if Delivers(reply) then [Resolved(SpeakerLabel(s.currentSpeaker), reply.text, ts2)] else [])
                     && r.current == s.current + 1
                     && (s.current + 1 < MaxQuestions ==> r.live == [])
                     && (s.current + 1 >= MaxQuestions ==> r.state == Ended)
                     && forall j :: 0 <= j < |r.questions| && j != s.current ==> r.questions[j] == b.questions[j]
  {
    var i := s.current;
    var a := NextQuestion(s, bytes);
    var b := AutoSave(a.session, store, now, writeFails).session;
    SaveKeepsOtherQuestions(a.session, store, now, writeFails);
    assert a.session.current == i + 1 && i < |a.session.questions|;
    assert a.session.questions[i].transcript == Settled(s.live);
    GateThenReplyAtTarget(b, a.sealed.value, s.live, ts1, reply, ts2);
  }

  /** An auto-save changes at most the current question's transcript. */
  lemma SaveKeepsOtherQuestions(x: Session, store: seq<Record>, now: int, writeFails: bool)
    ensures var b := AutoSave(x, store, now, writeFails).session;
            && b.(questions := x.questions) == x
            && |b.questions| == |x.questions|
            && forall j :: 0 <= j < |x.questions| && j != x.current ==> b.questions[j] == x.questions[j]
  {
  }

  /** A segment gated for a question other than the current one, holding a
      settled transcript, is answered there: its placeholder goes, the text
      of a delivered reply is appended, and nothing else changes. */
  lemma GateThenReplyAtTarget(b: Session, seg: Segment, t: seq<Entry>, ts1: string, reply: Reply, ts2: string)
    requires seg.bytes > MinSegmentBytes
    requires seg.target != b.current && seg.target < |b.questions|
    requires b.questions[seg.target].transcript == Settled(t)
    ensures var g := Gate(b, seg, ts1);
            && g.request == Some(Request(seg.speaker, seg.target))
            && var r := Reconcile(g.session, g.request.value, reply, ts2).session;
               && |r.questions| == |b.questions|
               && r.questions[seg.target].transcript
                    == Settled(t) + (if Delivers(reply) then [Resolved(SpeakerLabel(seg.speaker), reply.text, ts2)] else [])
               && r.current == b.current && r.live == b.live && r.state == b.state
               && forall j :: 0 <= j < |r.questions| && j != seg.target ==> r.questions[j] == b.questions[j]
  {
    var who := SpeakerLabel(seg.speaker);
    var g := Gate(b, seg, ts1);
    assert TranscriptAt(b, seg.target) == Some(Settled(t));
    FrameAtOtherQuestion(b, g.session, seg.target);
    ReplyAtTarget(g.session, g.request.value, Settled(t), ts1, reply, ts2);
    DropPendingOfSettled(t, who, ts1);
    if !Delivers(reply) {
      assert Settled(t) + [] == Settled(t);
    }
  }

  /** A transcript-only change at a question other than the current one
      leaves every other question, the live transcript and the state alone. */
  lemma FrameAtOtherQuestion(s: Session, r: Session, q: nat)
    requires OnlyTranscriptChanged(s, r, q) && q != s.current
    ensures r.current == s.current && r.live == s.live && r.state == s.state
    ensures |r.questions| == |s.questions|
    ensures forall j :: 0 <= j < |s.questions| && j != q ==> r.questions[j] == s.questions[j]
  {
    forall j | 0 <= j < |s.questions| && j != q
      ensures r.questions[j] == s.questions[j]
    {
      assert r.questions[j].(transcript := s.questions[j].transcript) == s.questions[j];
    }
  }

  /** A reply for a question other than the current one replaces the
      placeholder at the end of its transcript and changes nothing else. */
  lemma ReplyAtTarget(x: Session, req: Request, before: seq<Entry>, ts1: string, reply: Reply, ts2: string)
    requires req.target != x.current && req.target < |x.questions|
    requires x.questions[req.target].transcript == before + [Pending(SpeakerLabel(req.speaker), ts1)]
    ensures var r := Reconcile(x, req, reply, ts2).session;
            var kept := DropPending(before + [Pending(SpeakerLabel(req.speaker), ts1)], SpeakerLabel(req.speaker));
            && r.questions[req.target].transcript
                 == kept + (if Delivers(reply) then [Resolved(SpeakerLabel(req.speaker), reply.text, ts2)] else [])
            && r.current == x.current && r.live == x.live && r.state == x.state
            && |r.questions| == |x.questions|
            && forall j :: 0 <= j < |x.questions| && j != req.target ==> r.questions[j] == x.questions[j]
  {
    var r := Reconcile(x, req, reply, ts2).session;
    assert TranscriptAt(x, req.target).Some?;
    FrameAtOtherQuestion(x, r, req.target);
    assert TranscriptAt(r, req.target).value == r.questions[req.target].transcript;
  }

  /** A segment of at most 5000 bytes sealed by a speaker change makes no
      request and adds no placeholder: every transcript is as it was before
      the change. */
  lemma ShortSegmentLeavesNoTrace(s: Session, speaker: Option<string>, bytes: nat, timestamp: string)
    requires s.recording && s.segmentOpen && s.currentSpeaker != speaker
    requires bytes <= MinSegmentBytes
    ensures var w := SelectSpeaker(s, speaker, bytes);
            && w.sealed.Some?
            && var g := Gate(w.session, w.sealed.value, timestamp);
               && g.request.None?
               && forall q :: TranscriptAt(g.session, q) == TranscriptAt(s, q)
  {
  }

  // ---------------------------------------------------------------- seal counting

  datatype Selected = Selected(session: Session, sealed: seq<Segment>)

  /** A run of speaker selections while recording; `bytes` is the size of
      each segment at its seal. */
  function SelectAll(s: Session, picks: seq<Option<string>>, bytes: nat): (r: Selected)
    ensures r.session.recording == s.recording
    ensures |picks| > 0 ==> r.session.currentSpeaker == picks[|picks| - 1]
    ensures |picks| == 0 ==> r == Selected(s, [])
    decreases |picks|
  {
    if |picks| == 0 then Selected(s, [])
    else
      var w := SelectSpeaker(s, picks[0], bytes);
      var rest := SelectAll(w.session, picks[1..], bytes);
      Selected(rest.session, (if w.sealed.Some? then [w.sealed.value] else []) + rest.sealed)
  }

  /** How many times the selected speaker changes along `picks`, starting
      from `from`. */
  function Changes(from: Option<string>, picks: seq<Option<string>>): (n: nat)
    ensures n <= |picks|
    decreases |picks|
  {
    if |picks| == 0 then 0
    else (if picks[0] != from then 1 else 0) + Changes(picks[0], picks[1..])
  }

  /** While recording with a segment open, every change of speaker seals
      exactly one segment and re-selecting the same speaker seals none; all
      of them belong to the question on screen. */
  lemma {:induction false} SealsCountSpeakerChanges(s: Session, picks: seq<Option<string>>, bytes: nat)
    requires s.recording && s.segmentOpen
    ensures |SelectAll(s, picks, bytes).sealed| == Changes(s.currentSpeaker, picks)
    ensures forall k :: 0 <= k < |SelectAll(s, picks, bytes).sealed| ==>
              SelectAll(s, picks, bytes).sealed[k].target == s.current
    decreases |picks|
  {
    if |picks| > 0 {
      var w := SelectSpeaker(s, picks[0], bytes);
      SealsCountSpeakerChanges(w.session, picks[1..], bytes);
    }
  }

  /** Two taps in quick succession. The tap on B stops the recorder and
      waits for it; the tap on C comes in meanwhile, finds the recorder
      stopped, seals nothing and selects C; then the tap on B resumes and
      selects B. Two changes of speaker have sealed one segment, the speaker
      last tapped is C, and the segment that opened for C is sealed as B's
      at the next tap, even another tap on C. */
  lemma RapidTapsMisattribute(s: Session, a: string, b: string, c: string, bytes: nat, later: nat)
    requires s.recording && s.segmentOpen && s.currentSpeaker == Some(a)
    requires a != b && b != c
    ensures var tapB := BeginSelect(s, Some(b), bytes);
            var tapC := BeginSelect(tapB.session, Some(c), 0);
            var resumed := FinishSelect(tapC.session, Some(b));
            && tapB.sealed == Some(Segment(bytes, Some(a), s.current))
            && tapC.sealed.None?
            && Changes(Some(a), [Some(b), Some(c)]) == 2
            && resumed.currentSpeaker == Some(b) && resumed.segmentOpen
            && SelectSpeaker(resumed, Some(c), later).sealed == Some(Segment(later, Some(b), s.current))
  {
  }

  // ---------------------------------------------------------------- a whole interview

  lemma TrimmedName(name: string)
    requires |name| > 0 && 'A' <= name[0] <= 'Z' && 'a' <= name[|name| - 1] <= 'z'
    ensures Trim(name) == name && !IsBlank(name)
  {
    TrimOfTrimmed(name);
  }

  lemma AliceAndBobNames()
    ensures StudentNames(["Alice", "Bob"]) == ["Alice", "Bob"]
  {
    TrimmedName("Alice");
    TrimmedName("Bob");
    var inputs := ["Alice", "Bob"];
    assert inputs[1..] == ["Bob"];
    assert ["Bob"][1..] == [];
    assert StudentNames(["Bob"]) == ["Bob"] + StudentNames([]);
  }

  /** Starting the interview with Alice and Bob and one question. */
  lemma AliceAndBobStart()
    ensures var started := StartInterview(Initial(), ["Alice", "Bob"], ["Describe X"], "s-1");
            && started.Success? && started.value.saveRequested
            && var s := started.value.session;
               && s.state == Active && s.current == 0 && s.live == []
               && s.students == ["Alice", "Bob"] && |s.questions| == 1
               && s.currentSpeaker.None? && !s.recording && !s.segmentOpen
  {
    AliceAndBobNames();
    assert !HasSessionId(Initial());
  }

  /** Recording with Alice first (6000 bytes) and Bob taking over before her
      text comes back (7000 bytes): two placeholders, in order, each with a
      request for the question on screen. */
  lemma AliceAndBobRecord(s: Session)
    requires s.state == Active && s.current == 0 && s.live == []
    requires s.currentSpeaker.None? && !s.recording && !s.segmentOpen
    ensures var s2 := StartRecording(s, true).0;
            var w1 := SelectSpeaker(s2, Some("Alice"), 0);
            && w1.sealed.None?
            && var w2 := SelectSpeaker(w1.session, Some("Bob"), 6000);
               && w2.sealed == Some(Segment(6000, Some("Alice"), 0))
               && var g1 := Gate(w2.session, w2.sealed.value, "t1");
                  && g1.session.live == [Pending("Alice", "t1")]
                  && g1.request == Some(Request(Some("Alice"), 0))
                  && var w3 := SelectSpeaker(g1.session, Some("Alice"), 7000);
                     && w3.sealed == Some(Segment(7000, Some("Bob"), 0))
                     && var g2 := Gate(w3.session, w3.sealed.value, "t2");
                        && g2.session.live == [Pending("Alice", "t1"), Pending("Bob", "t2")]
                        && g2.request == Some(Request(Some("Bob"), 0))
                        && g2.session.current == 0
  {
    var s2 := StartRecording(s, true).0;
    var w1 := SelectSpeaker(s2, Some("Alice"), 0);
    var w2 := SelectSpeaker(w1.session, Some("Bob"), 6000);
    var g1 := Gate(w2.session, w2.sealed.value, "t1");
    assert g1.session.live == [] + [Pending("Alice", "t1")];
    var w3 := SelectSpeaker(g1.session, Some("Alice"), 7000);
    var g2 := Gate(w3.session, w3.sealed.value, "t2");
    assert g2.session.live == [Pending("Alice", "t1")] + [Pending("Bob", "t2")];
  }

  /** A delivered reply for the question on screen: the speaker's
      placeholders leave the live transcript and the text is appended. */
  lemma ReconcileOnScreen(s: Session, who: string, text: string, timestamp: string)
    requires who != "" && !IsBlank(text)
    ensures Reconcile(s, Request(Some(who), s.current), Reply(true, text), timestamp).session.live
              == DropPending(s.live, who) + [Resolved(who, text, timestamp)]
  {
  }

  lemma DropFirstOfTwo(a: Entry, b: Entry, who: string)
    requires IsPendingFor(a, who) && !IsPendingFor(b, who)
    ensures DropPending([a, b], who) == [b]
  {
    DropPendingKeepsOthers([a], who, b);
    assert [a] + [b] == [a, b];
    assert DropPending([a], who) == [] by {
      assert [a][1..] == [];
    }
  }

  /** Alice's text arrives first: her placeholder gives way to her text
      while Bob's placeholder stays pending. */
  lemma AliceResolves(s: Session)
    requires s.live == [Pending("Alice", "t1"), Pending("Bob", "t2")]
    ensures Reconcile(s, Request(Some("Alice"), s.current), Reply(true, "Hello"), "t3").session.live
              == [Pending("Bob", "t2"), Resolved("Alice", "Hello", "t3")]
  {
    TrimmedName("Hello");
    DropFirstOfTwo(Pending("Alice", "t1"), Pending("Bob", "t2"), "Alice");
    ReconcileOnScreen(s, "Alice", "Hello", "t3");
    assert [Pending("Bob", "t2")] + [Resolved("Alice", "Hello", "t3")]
           == [Pending("Bob", "t2"), Resolved("Alice", "Hello", "t3")];
  }

  /** Bob's text arrives next and lands after Alice's, which is untouched. */
  lemma BobResolves(s: Session)
    requires s.live == [Pending("Bob", "t2"), Resolved("Alice", "Hello", "t3")]
    ensures Reconcile(s, Request(Some("Bob"), s.current), Reply(true, "Hi"), "t4").session.live
              == [Resolved("Alice", "Hello", "t3"), Resolved("Bob", "Hi", "t4")]
  {
    TrimmedName("Hi");
    DropFirstOfTwo(Pending("Bob", "t2"), Resolved("Alice", "Hello", "t3"), "Bob");
    ReconcileOnScreen(s, "Bob", "Hi", "t4");
    assert [Resolved("Alice", "Hello", "t3")] + [Resolved("Bob", "Hi", "t4")]
           == [Resolved("Alice", "Hello", "t3"), Resolved("Bob", "Hi", "t4")];
  }

  /** Alice and Bob answer one question. Alice speaks first (6000 bytes),
      Bob takes over before her text comes back (7000 bytes), then the two
      results arrive, Alice's first. Each result replaces its own speaker's
      placeholder and leaves the other entry alone. */
  lemma AliceAndBob()
    ensures
      var s1 := StartInterview(Initial(), ["Alice", "Bob"], ["Describe X"], "s-1").value.session;
      var s2 := StartRecording(s1, true).0;
      var w1 := SelectSpeaker(s2, Some("Alice"), 0);
      var w2 := SelectSpeaker(w1.session, Some("Bob"), 6000);
      var g1 := Gate(w2.session, w2.sealed.value, "t1");
      var w3 := SelectSpeaker(g1.session, Some("Alice"), 7000);
      var g2 := Gate(w3.session, w3.sealed.value, "t2");
      var c1 := Reconcile(g2.session, g1.request.value, Reply(true, "Hello"), "t3");
      var c2 := Reconcile(c1.session, g2.request.value, Reply(true, "Hi"), "t4");
      && g1.session.live == [Pending("Alice", "t1")]
      && g2.session.live == [Pending("Alice", "t1"), Pending("Bob", "t2")]
      && c1.session.live == [Pending("Bob", "t2"), Resolved("Alice", "Hello", "t3")]
      && c2.session.live == [Resolved("Alice", "Hello", "t3"), Resolved("Bob", "Hi", "t4")]
  {
    AliceAndBobStart();
    var s1 := StartInterview(Initial(), ["Alice", "Bob"], ["Describe X"], "s-1").value.session;
    AliceAndBobRecord(s1);
    var s2 := StartRecording(s1, true).0;
    var w1 := SelectSpeaker(s2, Some("Alice"), 0);
    var w2 := SelectSpeaker(w1.session, Some("Bob"), 6000);
    var g1 := Gate(w2.session, w2.sealed.value, "t1");
    var w3 := SelectSpeaker(g1.session, Some("Alice"), 7000);
    var g2 := Gate(w3.session, w3.sealed.value, "t2");
    AliceResolves(g2.session);
    var c1 := Reconcile(g2.session, g1.request.value, Reply(true, "Hello"), "t3");
    assert c1.session.current == 0;
    BobResolves(c1.session);
  }

  /** Six presses of "next question" from the first question of a freshly
      started interview end it, and the question list never grows past six
      on the way. */
  lemma SixPressesEndTheInterview(names: seq<string>, questionInputs: seq<string>, id: string, bytes: seq<nat>)
    requires 1 <= |questionInputs| <= MaxQuestions && id != ""
    requires |bytes| == MaxQuestions
    requires StartInterview(Initial(), names, questionInputs, id).Success?
    ensures var s := StartInterview(Initial(), names, questionInputs, id).value.session;
            Advance(s, bytes).state == Ended && |Advance(s, bytes).questions| <= MaxQuestions
  {
    var s := StartInterview(Initial(), names, questionInputs, id).value.session;
    AdvanceEndsAtCap(s, bytes);
    AdvanceRespectsCap(s, bytes);
  }
}
