/** Auto-save and recovery in `public/app.js` over the `interviewHistory`
    list kept in localStorage. The list is a sequence of records; JSON
    serialisation and the browser storage API are not modelled, and times are
    integer milliseconds supplied by the caller. */
module Storage {
  import opened Wrappers
  import opened Seqs
  import opened Sessions

  /** Twenty-four hours in milliseconds, the recovery window. */
  const DayMs: int := 24 * 60 * 60 * 1000

  /** One stored interview. `savedAt` is `None` when the stored time is
      missing or unreadable. `transcription` is the flat single-question
      transcript of records in the older layout read by the history page;
      records written by auto-save do not carry it. */
  datatype Record = Record(
    id: string,
    state: State,
    autoSaved: bool,
    savedAt: Option<int>,
    questions: seq<Question>,
    students: seq<string>,
    transcription: Option<seq<Entry>>)

  /** `prepareSessionForSaving()`'s side effect: the current question, if it
      exists, stores a copy of the live transcript, placeholders included. */
  function Prepare(s: Session): (r: Session)
    ensures |r.questions| == |s.questions|
    ensures s.current < |s.questions| ==> r.questions[s.current].transcript == s.live
    ensures forall i :: 0 <= i < |s.questions| && i != s.current ==> r.questions[i] == s.questions[i]
    ensures r.(questions := s.questions) == s
  {
    if s.current < |s.questions|
    then s.(questions := s.questions[s.current := s.questions[s.current].(transcript := s.live)])
    else s
  }

  /** The record an auto-save writes for a prepared session. */
  function SnapshotOf(s: Session, now: int): (rec: Record)
    requires HasSessionId(s)
    ensures rec.id == s.sessionId.value && rec.autoSaved && rec.savedAt == Some(now)
    ensures rec.state == s.state && rec.questions == s.questions && rec.students == s.students
    ensures rec.transcription.None?
  {
    Record(s.sessionId.value, s.state, true, Some(now), s.questions, s.students, None)
  }

  /** `savedInterviews.findIndex(s => s.id === id)`. */
  function IndexOfId(store: seq<Record>, id: string): (k: Option<nat>)
    ensures k.Some? ==> k.value < |store| && store[k.value].id == id
    ensures k.Some? ==> forall j :: 0 <= j < k.value ==> store[j].id != id
    ensures k.None? ==> forall j :: 0 <= j < |store| ==> store[j].id != id
  {
    FindFirst(store, (r: Record) => r.id == id)
  }

  /** Replace-or-append by id: the first record with the same id is replaced
      in place; without one the record is appended. No other record moves or
      changes. */
  function Upsert(store: seq<Record>, rec: Record): (r: seq<Record>)
    ensures IndexOfId(store, rec.id).Some? ==>
              && |r| == |store|
              && r[IndexOfId(store, rec.id).value] == rec
              && forall j :: 0 <= j < |store| && j != IndexOfId(store, rec.id).value ==> r[j] == store[j]
    ensures IndexOfId(store, rec.id).None? ==>
              |r| == |store| + 1 && r[..|store|] == store && r[|store|] == rec
  {
    match IndexOfId(store, rec.id)
    case Some(k) => store[k := rec]
    case None => store + [rec]
  }

  /** After an upsert, looking the id up finds exactly the record written. */
  lemma UpsertThenFind(store: seq<Record>, rec: Record)
    ensures var k := IndexOfId(Upsert(store, rec), rec.id);
            k.Some? && Upsert(store, rec)[k.value] == rec
  {
    var r := Upsert(store, rec);
    match IndexOfId(store, rec.id)
    case Some(k) =>
      assert forall j :: 0 <= j < k ==> r[j] == store[j];
      assert IndexOfId(r, rec.id) == Some(k);
    case None =>
      assert forall j :: 0 <= j < |store| ==> r[j] == store[j];
      assert IndexOfId(r, rec.id) == Some(|store|);
  }

  /** Writing the same record twice is writing it once. */
  lemma UpsertIdempotent(store: seq<Record>, rec: Record)
    ensures Upsert(Upsert(store, rec), rec) == Upsert(store, rec)
  {
    UpsertThenFind(store, rec);
    var r := Upsert(store, rec);
    var k := IndexOfId(r, rec.id).value;
    assert r[k := rec] == r;
  }

  datatype Saved = Saved(session: Session, store: seq<Record>, ok: bool)

  /** `autoSaveSession(trigger)`. It reports false and changes nothing when
      auto-save is disabled or the session has no id. Otherwise the session
      is prepared (the current question takes a copy of the live transcript)
      and its snapshot is upserted by id; when the storage write fails
      (`writeFails`, a full quota) the list is unchanged and the result is
      false, though the preparation has already happened. */
  function AutoSave(s: Session, store: seq<Record>, now: int, writeFails: bool): (r: Saved)
    ensures !s.autoSaveEnabled || !HasSessionId(s) ==> r == Saved(s, store, false)
    ensures s.autoSaveEnabled && HasSessionId(s) ==> r.session == Prepare(s)
    ensures r.ok <==> s.autoSaveEnabled && HasSessionId(s) && !writeFails
    ensures !r.ok ==> r.store == store
    ensures r.ok ==> r.store == Upsert(store, SnapshotOf(Prepare(s), now))
  {
    if !s.autoSaveEnabled || !HasSessionId(s) then Saved(s, store, false)
    else
      var prepared := Prepare(s);
      if writeFails then Saved(prepared, store, false)
      else Saved(prepared, Upsert(store, SnapshotOf(prepared, now)), true)
  }

  /** The session once an auto-save has run its preparation: prepared when
      auto-save is enabled and the session has an id, as it was otherwise.
      `autoSaveSession` contains no `await`, so this preparation has happened
      by the time the operation that called it continues. */
  function AfterSave(s: Session): (r: Session)
    ensures r == AutoSave(s, [], 0, false).session
    ensures s.autoSaveEnabled && HasSessionId(s) ==> r == Prepare(s)
    ensures !(s.autoSaveEnabled && HasSessionId(s)) ==> r == s
    ensures r.(questions := s.questions) == s && |r.questions| == |s.questions|
  {
    if s.autoSaveEnabled && HasSessionId(s) then Prepare(s) else s
  }

  /** Preparing twice is preparing once. */
  lemma {:induction false} PrepareIdempotent(s: Session)
    ensures Prepare(Prepare(s)) == Prepare(s)
  {
    if s.current < |s.questions| {
      var p := Prepare(s);
      assert p.questions[s.current := p.questions[s.current].(transcript := p.live)] == p.questions;
    }
  }

  /** Running the write of an auto-save on a session whose preparation has
      already run changes the session no further and writes the same list
      as the whole auto-save would have. */
  lemma AutoSaveAfterSave(s: Session, store: seq<Record>, now: int, writeFails: bool)
    ensures AutoSave(AfterSave(s), store, now, writeFails).session == AfterSave(s)
    ensures AutoSave(AfterSave(s), store, now, writeFails).store == AutoSave(s, store, now, writeFails).store
  {
    PrepareIdempotent(s);
  }

  /** A successful auto-save stores the prepared session's questions under
      its id. */
  lemma AutoSaveStoresQuestions(s: Session, store: seq<Record>, now: int)
    requires s.autoSaveEnabled && HasSessionId(s)
    ensures var saved := AutoSave(s, store, now, false).store;
            var k := IndexOfId(saved, s.sessionId.value);
            k.Some? && saved[k.value].questions == Prepare(s).questions
  {
    UpsertThenFind(store, SnapshotOf(Prepare(s), now));
  }

  /** In particular, the stored record's current question holds the live
      transcript as it is, placeholders included. */
  lemma AutoSaveStoresCurrent(s: Session, store: seq<Record>, now: int)
    requires s.autoSaveEnabled && HasSessionId(s) && s.current < |s.questions|
    ensures var saved := AutoSave(s, store, now, false).store;
            var k := IndexOfId(saved, s.sessionId.value);
            k.Some? && saved[k.value].questions[s.current].transcript == s.live
  {
    AutoSaveStoresQuestions(s, store, now);
  }

  /** `discardIncompleteSession(id)`: exactly the records with that id go;
      the others stay, in order. */
  function Discard(store: seq<Record>, id: string): (r: seq<Record>)
    ensures forall j :: 0 <= j < |r| ==> r[j].id != id
    ensures forall x :: multiset(r)[x] == if x.id == id then 0 else multiset(store)[x]
  {
    Filter(store, (x: Record) => x.id != id)
  }

  /** Saving a brand-new session and then discarding it restores the list. */
  lemma {:induction false} DiscardUndoesFirstSave(store: seq<Record>, rec: Record)
    requires forall j :: 0 <= j < |store| ==> store[j].id != rec.id
    ensures Discard(Upsert(store, rec), rec.id) == store
  {
    FilterAppend(store, [rec], (x: Record) => x.id != rec.id);
    FilterKeepsAll(store, (x: Record) => x.id != rec.id);
  }

  /** Discarding twice is discarding once. */
  lemma DiscardIdempotent(store: seq<Record>, id: string)
    ensures Discard(Discard(store, id), id) == Discard(store, id)
  {
    FilterIdempotent(store, (x: Record) => x.id != id);
  }

  /** The filter `checkForIncompleteSession()` applies: auto-saved, still in
      setup or active, and saved less than 24 hours before `now`. */
  predicate Recoverable(rec: Record, now: int) {
    && rec.autoSaved
    && (rec.state == Active || rec.state == Setup)
    && rec.savedAt.Some?
    && now - rec.savedAt.value < DayMs
  }

  /** `checkForIncompleteSession()`: the first recoverable record, if any. */
  function CheckForIncomplete(store: seq<Record>, now: int): (found: Option<Record>)
    ensures found.Some? ==> Recoverable(found.value, now) && found.value in store
    ensures found.Some? ==> exists k :: 0 <= k < |store| && store[k] == found.value
                                        && forall j :: 0 <= j < k ==> !Recoverable(store[j], now)
    ensures found.None? ==> forall j :: 0 <= j < |store| ==> !Recoverable(store[j], now)
  {
    match FindFirst(store, (x: Record) => Recoverable(x, now))
    case Some(k) => Some(store[k])
    case None => None
  }

  /** After an active session auto-saves successfully, some record is
      offered for recovery on any load within the next 24 hours. It is the
      first recoverable record in the list, which need not be this session's
      (`OlderRecordIsOfferedFirst`). */
  lemma SavedActiveSessionIsOffered(s: Session, store: seq<Record>, savedAt: int, now: int)
    requires s.state == Active && s.autoSaveEnabled && HasSessionId(s)
    requires now - savedAt < DayMs
    ensures CheckForIncomplete(AutoSave(s, store, savedAt, false).store, now).Some?
  {
    var rec := SnapshotOf(Prepare(s), savedAt);
    var r := Upsert(store, rec);
    UpsertThenFind(store, rec);
    var k := IndexOfId(r, rec.id).value;
    assert Recoverable(r[k], now);
  }

  /** When no other record in the list is recoverable, the record offered is
      the session just saved. */
  lemma SavedSessionIsTheOneOffered(s: Session, store: seq<Record>, savedAt: int, now: int)
    requires s.state == Active && s.autoSaveEnabled && HasSessionId(s)
    requires now - savedAt < DayMs
    requires forall j :: 0 <= j < |store| && store[j].id != s.sessionId.value ==> !Recoverable(store[j], now)
    ensures var found := CheckForIncomplete(AutoSave(s, store, savedAt, false).store, now);
            found.Some? && found.value.id == s.sessionId.value
  {
    SavedActiveSessionIsOffered(s, store, savedAt, now);
    var rec := SnapshotOf(Prepare(s), savedAt);
    var r := Upsert(store, rec);
    assert AutoSave(s, store, savedAt, false).store == r;
    assert forall j :: 0 <= j < |r| && r[j].id != rec.id ==> !Recoverable(r[j], now) by {
      forall j | 0 <= j < |r| && r[j].id != rec.id
        ensures !Recoverable(r[j], now)
      {
        if IndexOfId(store, rec.id).None? {
          assert j < |store| && r[j] == r[..|store|][j];
        }
      }
    }
  }

  /** Recovery offers the first recoverable record: an older active session
      still in the list is offered instead of the one just saved. */
  lemma OlderRecordIsOfferedFirst()
    ensures var older := Record("a", Active, true, Some(0), [], [], None);
            var s := Session(Some("b"), Active, [], 0, [], [], None, true, false, false);
            CheckForIncomplete(AutoSave(s, [older], 0, false).store, 1) == Some(older)
  {
    var older := Record("a", Active, true, Some(0), [], [], None);
    var s := Session(Some("b"), Active, [], 0, [], [], None, true, false, false);
    var saved := AutoSave(s, [older], 0, false).store;
    assert saved[0] == older;
    assert Recoverable(older, 1);
  }

  /** After a discard, recovery never offers the discarded session. */
  lemma DiscardedSessionIsNotOffered(store: seq<Record>, id: string, now: int)
    ensures var found := CheckForIncomplete(Discard(store, id), now);
            found.Some? ==> found.value.id != id
  {
  }
}
