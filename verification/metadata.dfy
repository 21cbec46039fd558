/** Small pure computations of `public/app.js`: the session quality and
    questions-completed figures of `calculateSessionMetadata`, the `mm:ss`
    clock of `calculateSessionDuration`, and the recording format chosen by
    `startSpeakerRecording`. */
module Metadata {
  import opened Wrappers
  import opened Seqs
  import opened Strings
  import opened Sessions

  // ---------------------------------------------------------------- quality

  datatype Quality = Good | Partial | Incomplete

  /** How many questions have at least one transcript entry (placeholders
      count, as `transcription.length > 0` counts them). */
  function CountWithEntries(qs: seq<Question>): (n: nat)
    ensures n <= |qs|
    ensures n == |qs| <==> forall i :: 0 <= i < |qs| ==> |qs[i].transcript| > 0
    ensures n == 0 <==> forall i :: 0 <= i < |qs| ==> |qs[i].transcript| == 0
  {
    if |qs| == 0 then 0
    else (if |qs[0].transcript| > 0 then 1 else 0) + CountWithEntries(qs[1..])
  }

  /** `metadata.sessionQuality`: good when every question has entries,
      partial when more than half do, incomplete otherwise. */
  function SessionQuality(qs: seq<Question>): (q: Quality)
    ensures q == Good <==> forall i :: 0 <= i < |qs| ==> |qs[i].transcript| > 0
    ensures q == Partial <==>
              (exists i :: 0 <= i < |qs| && |qs[i].transcript| == 0) && 2 * CountWithEntries(qs) > |qs|
    ensures q == Incomplete ==> exists i :: 0 <= i < |qs| && |qs[i].transcript| == 0
    ensures |qs| > 0 && (forall i :: 0 <= i < |qs| ==> |qs[i].transcript| == 0) ==> q == Incomplete
  {
    var n := CountWithEntries(qs);
    if n == |qs| then Good
    else if 2 * n > |qs| then Partial
    else Incomplete
  }

  // ---------------------------------------------------------------- questions completed

  /** `metadata.questionsCompleted` as the source computes it: the current
      index, plus one once the session has ended. */
  function QuestionsCompletedAsWritten(s: Session): nat {
    s.current + if s.state == Ended then 1 else 0
  }

  /** A session that ran into the six-question cap reports seven questions
      completed out of six. */
  lemma QuestionsCompletedOverCountsAtCap()
    ensures var s := Session(Some("s"), Ended, seq(6, i => Question("q", [], false, false)), 6,
                             ["Alice"], [], None, true, false, false);
            QuestionsCompletedAsWritten(s) == 7 && |s.questions| == 6
  {
  }

  /** The figure with the evident intent: never more than the number of
      questions, and otherwise what the source computes. */
  function QuestionsCompleted(s: Session): (n: nat)
    ensures n <= |s.questions|
    ensures QuestionsCompletedAsWritten(s) <= |s.questions| ==> n == QuestionsCompletedAsWritten(s)
    ensures QuestionsCompletedAsWritten(s) > |s.questions| ==> n == |s.questions|
  {
    var written := QuestionsCompletedAsWritten(s);
    if written <= |s.questions| then written else |s.questions|
  }

  // ---------------------------------------------------------------- duration

  /** JavaScript's `a % b` for a positive divisor: the remainder takes the
      sign of the dividend, and what it leaves is the quotient truncated
      toward zero times `b`. */
  function JsRem(a: int, b: int): (r: int)
    requires b > 0
    ensures a >= 0 ==> 0 <= r < b && r == a % b
    ensures a < 0 ==> -b < r <= 0
    ensures a < 0 ==> a == -((-a) / b) * b + r
  {
    if a >= 0 then a % b
    else
      var m := (-a) % b;
      assert -a == ((-a) / b) * b + m;
      -m
  }

  /** `${mm}:${ss}` for a duration in milliseconds: whole minutes (floored)
      and whole seconds of the remainder, each padded to two digits. */
  function FormatClock(ms: int): string {
    Pad2(ShowInt(ms / 60000)) + ":" + Pad2(ShowInt(JsRem(ms, 60000) / 1000))
  }

  /** `calculateSessionDuration()`: `00:00` without a start time, otherwise
      the clock from the start to the end time, or to `now` while running. */
  function SessionDuration(start: Option<int>, end: Option<int>, now: int): (d: string)
    ensures start.None? ==> d == "00:00"
  {
    if start.None? then "00:00"
    else FormatClock((if end.Some? then end.value else now) - start.value)
  }

  /** Reading a `minutes:seconds` clock back. */
  function ParseClock(t: string): Option<(nat, nat)> {
    match FindFirst(t, (c: char) => c == ':')
    case None => None
    case Some(k) =>
      if AllDigits(t[..k]) && AllDigits(t[k + 1..]) then Some((ParseNat(t[..k]), ParseNat(t[k + 1..])))
      else None
  }

  lemma {:induction false} ParseNatLeadingZero(x: string)
    requires AllDigits(x)
    ensures AllDigits("0" + x) && ParseNat("0" + x) == ParseNat(x)
  {
    if |x| > 0 {
      var y := "0" + x;
      assert y[..|y| - 1] == "0" + x[..|x| - 1];
      ParseNatLeadingZero(x[..|x| - 1]);
    }
  }

  lemma ParsePad2(x: string)
    requires AllDigits(x)
    ensures AllDigits(Pad2(x)) && ParseNat(Pad2(x)) == ParseNat(x)
  {
    if |x| == 0 {
      assert ParseNat("00") == 0 by {
        assert "00"[..1] == "0";
        assert "0"[..0] == "";
      }
    } else if |x| == 1 {
      ParseNatLeadingZero(x);
    }
  }

  /** Any two digit strings joined by a colon read back as their values. */
  lemma ParseJoinedClock(a: string, b: string)
    requires AllDigits(a) && AllDigits(b)
    ensures ParseClock(a + ":" + b) == Some((ParseNat(a), ParseNat(b)))
  {
    var t := a + ":" + b;
    assert t[|a|] == ':';
    assert forall j :: 0 <= j < |a| ==> t[j] == a[j];
    assert FindFirst(t, (c: char) => c == ':') == Some(|a|);
    assert t[..|a|] == a;
    assert t[|a| + 1..] == b;
  }

  /** Whole minutes and the whole seconds of the remainder bracket the duration. */
  lemma ClockArithmetic(ms: int)
    requires ms >= 0
    ensures var m := ms / 60000; var sec := (ms % 60000) / 1000;
            sec < 60 && m * 60000 + sec * 1000 <= ms < m * 60000 + sec * 1000 + 1000
  {
    var m := ms / 60000;
    var rem := ms % 60000;
    assert ms == m * 60000 + rem;
    var sec := rem / 1000;
    assert rem == sec * 1000 + rem % 1000;
  }

  /** The clock shown for a non-negative duration reads back as the duration
      truncated to whole seconds, with fewer than sixty seconds. */
  lemma ClockRoundTrip(ms: int)
    requires ms >= 0
    ensures ParseClock(FormatClock(ms)).Some?
    ensures var (m, sec) := ParseClock(FormatClock(ms)).value;
            sec < 60 && m * 60000 + sec * 1000 <= ms < m * 60000 + sec * 1000 + 1000
  {
    var mm := ms / 60000;
    var ss := (ms % 60000) / 1000;
    assert JsRem(ms, 60000) == ms % 60000;
    assert FormatClock(ms) == Pad2(ShowNat(mm)) + ":" + Pad2(ShowNat(ss));
    ParsePad2(ShowNat(mm));
    ParsePad2(ShowNat(ss));
    ParseShowNat(mm);
    ParseShowNat(ss);
    ParseJoinedClock(Pad2(ShowNat(mm)), Pad2(ShowNat(ss)));
    ClockArithmetic(ms);
  }

  // ---------------------------------------------------------------- recording format

  /** The recording formats tried, best first. */
  const MimePreferences: seq<string> :=
    ["audio/wav", "audio/mp4", "audio/mpeg", "audio/webm;codecs=opus", "audio/webm", "audio/ogg;codecs=opus"]

  /** The format `startSpeakerRecording()` picks: the first supported entry
      of the preference list, or `audio/wav` when none is supported.
      `isSupported` stands for `MediaRecorder.isTypeSupported`. */
  method SelectMimeType(isSupported: string -> bool) returns (mime: string)
    ensures mime in MimePreferences
    ensures (exists i :: 0 <= i < |MimePreferences| && isSupported(MimePreferences[i])) ==>
              isSupported(mime)
              && exists k :: 0 <= k < |MimePreferences| && MimePreferences[k] == mime
                             && forall j :: 0 <= j < k ==> !isSupported(MimePreferences[j])
    ensures (forall i :: 0 <= i < |MimePreferences| ==> !isSupported(MimePreferences[i])) ==>
              mime == "audio/wav"
  {
    mime := "audio/wav";
    var i := 0;
    while i < |MimePreferences|
      invariant 0 <= i <= |MimePreferences|
      invariant forall j :: 0 <= j < i ==> !isSupported(MimePreferences[j])
      invariant mime == "audio/wav"
    {
      if isSupported(MimePreferences[i]) {
        mime := MimePreferences[i];
        return;
      }
      i := i + 1;
    }
  }
}
